/**
 * Chat-message handling of the calling bot: reducing a message activity to a
 * lower-case command token, routing the token through the fixed command switch,
 * and the text of the replies the switch sends.
 */
module Messages {
  import opened Maybe
  import opened Text

  /** The sender of an activity: its Azure AD object id and its display name. */
  datatype Account = Account(aadObjectId: string, name: string)

  /** The value an adaptive card submits; only its "type" field is consulted (null when absent). */
  datatype CardValue = CardValue(typeField: Option<string>)

  /** A message activity: its text and card value are both nullable. */
  datatype MessageActivity = MessageActivity(text: Option<string>, value: Option<CardValue>, from: Account)

  /** String.IsNullOrEmpty. */
  predicate IsNullOrEmpty(s: Option<string>)
  {
    s == None || s.value == ""
  }

  /**
   * The token OnMessageActivityAsync hands to SendReponse, or None when nothing
   * is sent: text wins when present (trimmed, lowered); otherwise the card's
   * type is lowered, with "." standing in for a missing one.
   */
  function CommandToken(a: MessageActivity): (token: Option<string>)
    ensures token.None? <==> IsNullOrEmpty(a.text) && a.value.None?
    ensures token.Some? ==> IsLower(token.value)
    ensures IsNullOrEmpty(a.text) && a.value.Some? ==> token.Some? && token.value != ""
    ensures !IsNullOrEmpty(a.text) ==> token == Some(ToLower(Trim(a.text.value)))
    ensures IsNullOrEmpty(a.text) && a.value.Some? ==>
      token == Some(if IsNullOrEmpty(a.value.value.typeField) then "." else ToLower(a.value.value.typeField.value))
  {
    if !IsNullOrEmpty(a.text) then Some(ToLower(Trim(a.text.value)))
    else if a.value == None then None
    else if IsNullOrEmpty(a.value.value.typeField) then Some(".")
    else Some(ToLower(a.value.value.typeField.value))
  }

  /** The branches of SendReponse's switch; Echo is its default case. */
  datatype Command =
    | CreateCall | TransferCall | JoinScheduledMeeting | InviteParticipant
    | NewMeeting | NewCall | NewGroupCall
    | ReportSick | Register | HelloWorld | Help | Report
    | Echo(input: string)

  /** The case label that selects a (non-default) command. */
  function Keyword(c: Command): (k: string)
    requires !c.Echo?
  {
    match c
    case CreateCall => "createcall"
    case TransferCall => "transfercall"
    case JoinScheduledMeeting => "joinscheduledmeeting"
    case InviteParticipant => "inviteparticipant"
    case NewMeeting => "new"
    case NewCall => "newc"
    case NewGroupCall => "newgc"
    case ReportSick => "reportsick"
    case Register => "register"
    case HelloWorld => "helloworld"
    case Help => "help"
    case Report => "report"
  }

  /** The switch of SendReponse: exact, case-sensitive comparison against the case labels. */
  function Route(token: string): (c: Command)
    ensures c.Echo? ==> c.input == token
    ensures !c.Echo? ==> Keyword(c) == token
  {
    if token == "createcall" then CreateCall
    else if token == "transfercall" then TransferCall
    else if token == "joinscheduledmeeting" then JoinScheduledMeeting
    else if token == "inviteparticipant" then InviteParticipant
    else if token == "new" then NewMeeting
    else if token == "newc" then NewCall
    else if token == "newgc" then NewGroupCall
    else if token == "reportsick" then ReportSick
    else if token == "register" then Register
    else if token == "helloworld" then HelloWorld
    else if token == "help" then Help
    else if token == "report" then Report
    else Echo(token)
  }

  /** The commands that call Microsoft Graph with hard-coded ids and whose replies depend on the network. */
  predicate IsGraphCommand(c: Command)
  {
    c.CreateCall? || c.TransferCall? || c.JoinScheduledMeeting? || c.InviteParticipant? ||
    c.NewMeeting? || c.NewCall?
  }

  /** The commands whose only effect is on the roster table or the chat. */
  predicate IsChatCommand(c: Command)
  {
    c.ReportSick? || c.Register? || c.HelloWorld? || c.Help? || c.Report? || c.Echo?
  }

  /** The two adaptive cards the bot can send. */
  datatype Card = InfoCard | ReportCard

  /** The text messages the switch sends; Rendered gives the string that goes out. */
  datatype Message =
    | Registered(senderName: string)
    | AlreadyRegistered
    | SignedOff(senderName: string)
    | Echoed(input: string)

  datatype Reply = TextReply(message: Message) | CardReply(card: Card)

  const EchoPrefix: string := "Welcome to bot. This is what you said: "
  const Greeting: string := "Hallo "
  const RegisteredSuffix: string := "! Deine Registrierung war erfolgreich. :)"
  const AlreadyRegisteredText: string := "User bereits registriert."
  const SignOff: string := "Okay, "
  // The characters U+CCB4 and U+CC44 are as they appear in CallingBot.cs.
  const SignedOffSuffix: string :=
    ", du wurdest f\U{CCB4}r das n\U{CC44}chste Meeting ausgetragen. Sollte sich dein Plan \U{CC44}ndern, " +
    "benutzte gerne 'checkin' um dich wieder einzutragen. Andernfalls w\U{CCB4}rden wir uns freuen wenn du " +
    "einen kleinen schriftlichen Scrumbeitrag abgibst! Auf einen guten Arbeitstag."

  /**
   * The text that goes out. Each kind of message starts with its own letter,
   * and the sender's name or the echoed token stands at a fixed place in it.
   */
  function Rendered(m: Message): (text: string)
    ensures |text| > 0 && text[0] == InitialOf(m)
    ensures m.Registered? || m.SignedOff? ==>
      |text| > NameAt + |m.senderName| && text[NameAt..NameAt + |m.senderName|] == m.senderName
    ensures m.Registered? ==> text[..NameAt] == Greeting && text[NameAt + |m.senderName|..] == RegisteredSuffix
    ensures m.SignedOff? ==> text[..NameAt] == SignOff && text[NameAt + |m.senderName|..] == SignedOffSuffix
    ensures m.AlreadyRegistered? ==> text == AlreadyRegisteredText
    ensures m.Echoed? ==> |text| == |EchoPrefix| + |m.input| && text[..|EchoPrefix|] == EchoPrefix && text[|EchoPrefix|..] == m.input
  {
    match m
    case Registered(name) => Greeting + name + RegisteredSuffix
    case AlreadyRegistered => AlreadyRegisteredText
    case SignedOff(name) => SignOff + name + SignedOffSuffix
    case Echoed(input) => EchoPrefix + input
  }

  /** Where the sender's name starts in the greeting and in the sign-off ("Hallo " and "Okay, "). */
  const NameAt: nat := 6

  /** The first letter of each kind of reply text. */
  function InitialOf(m: Message): char
  {
    match m
    case Registered(_) => 'H'
    case AlreadyRegistered => 'U'
    case SignedOff(_) => 'O'
    case Echoed(_) => 'W'
  }

  /** The reply text determines the message: no two messages read the same. */
  lemma RenderedInjective(m1: Message, m2: Message)
    requires Rendered(m1) == Rendered(m2)
    ensures m1 == m2
  {
    var text := Rendered(m1);
    assert InitialOf(m1) == text[0] == InitialOf(m2);
    if m1.Registered? || m1.SignedOff? {
      var suffix := text[NameAt + |m1.senderName|..];
      assert |suffix| == |text| - NameAt - |m1.senderName|;
      assert |text| - NameAt - |m1.senderName| == |text| - NameAt - |m2.senderName| by {
        assert Rendered(m1)[NameAt + |m1.senderName|..] == Rendered(m2)[NameAt + |m2.senderName|..];
      }
    }
  }

  /**
   * What the switch sends back for a command that does not call Graph; `inserted`
   * is whether the register insert succeeded (ignored by every other command).
   */
  function RepliesTo(c: Command, senderName: string, inserted: bool): (r: seq<Reply>)
    requires IsChatCommand(c)
    ensures |r| <= 1
    ensures r == [] <==> c.HelloWorld?
    ensures c.Register? ==> (r == [TextReply(AlreadyRegistered)] <==> !inserted)
  {
    match c
    case ReportSick => [TextReply(SignedOff(senderName))]
    case Register => if inserted then [TextReply(Registered(senderName))] else [TextReply(AlreadyRegistered)]
    case HelloWorld => []
    case Help => [CardReply(InfoCard)]
    case Report => [CardReply(ReportCard)]
    case Echo(input) => [TextReply(Echoed(input))]
  }

  /** When there is text the card value is ignored. */
  lemma TextOverridesCard(a: MessageActivity, v: Option<CardValue>)
    requires !IsNullOrEmpty(a.text)
    ensures CommandToken(a.(value := v)) == CommandToken(a)
  {
  }

  /** Normalising a text token again gives it back: the token is already trimmed and lower case. */
  lemma TextTokenIsNormal(a: MessageActivity)
    requires !IsNullOrEmpty(a.text)
    ensures var t := CommandToken(a).value;
      t == "" || CommandToken(a.(text := Some(t))) == Some(t)
  {
    var s := a.text.value;
    TrimToLowerCommute(Trim(s));
    TrimIdempotent(s);
  }

  /** Every case label routes back to its own command. */
  lemma RouteKeyword(c: Command)
    requires !c.Echo?
    ensures Route(Keyword(c)) == c
  {
  }

  /** A token that is no case label, "." included, gets exactly one reply: the echo of the token. */
  lemma UnknownTokenEchoed(token: string, senderName: string, inserted: bool)
    requires forall c: Command :: !c.Echo? ==> Keyword(c) != token
    ensures Route(token) == Echo(token)
    ensures RepliesTo(Route(token), senderName, inserted) == [TextReply(Echoed(token))]
  {
  }

  lemma DotIsUnknown()
    ensures forall c: Command :: !c.Echo? ==> Keyword(c) != "."
  {
  }
}
