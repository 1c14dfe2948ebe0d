# Calling bot roster and call gating, modelled in Dafny

This project models the core of `CallingBot`, the bot class of a Microsoft Teams
scrum-meeting bot. The bot reads chat messages, keeps a roster of employees in
an `Employee` table (`id`, `displayname`, `attends`), places an outgoing group
call to the attending employees, and answers incoming calls that reach it
through its `/callback` webhook, playing a recorded prompt once it has answered.
Every SDK, database and network call is treated as an abstract collaborator
whose outcome is an input.

Modules:

- `Maybe` (`maybe.dfy`): `Option`, used for .NET values that may be null.
- `Text` (`text.dfy`): `String.Trim` (white space as `Char.IsWhiteSpace` defines it) and `String.ToLower`.
- `Messages` (`messages.dfy`): how a message activity becomes a lower-case command token (`CommandToken`), the command switch (`Route`), and the replies the switch sends (`RepliesTo`, `Rendered`).
- `Roster` (`roster.dfy`): the `Employee` table as the class `EmployeeTable`. It holds a keyed map `rows` and the order `order` in which a reader yields those rows. `Insert` models the `register` insert and `MarkAbsent` the `reportsick` update. `Participants` models `getParticipants` as a loop. `AttendingTargets` specifies that loop, and lemmas about it cover soundness, completeness, read order, prefixes and the effect of each roster command.
- `Webhook` (`webhook.dfy`): how `ProcessNotificationAsync` picks the HTTP response (403, the processor's response, or 500 with the exception text).
- `Calls` (`calls.dfy`): the answer gate (`IncomingCallId`), the command trace of `BotAnswerIncomingCallAsync` (`Answer`, then `Delay(5000)`, then `PlayPrompt` only when the Answer task ran to completion), and relative-URI resolution against the bot's base URL.
- `Bot` (`bot.dfy`): the class `CallingBot`. `SendResponse` and `OnMessageActivity` route a token, carry out the roster commands on the table and build the `newgc` group call from the attending rows. The ghost predicate `Handled` states the effect of one command. Lemmas chain two commands: `reportsick` followed by `newgc`, `register` followed by `newgc`, and `register` twice.

Collaborators become inputs:
- Store exceptions are `storeFault` (a write raises `SqlException`) and `readFault` (the index of the reader's `Read()` that raises it).
- Where the store places a new row in the order a reader yields the rows is `insertAt`.
- Authentication and notification processing are the `Validation` and `Processing` values.
- How the Answer task ended is a `TaskStatus`.

Facts about the code that the model keeps:
- The code keeps no per-call state. Every `Created` notification about an `Incoming` call issues an Answer, and a redelivered notification issues another one. No call state records a failed answer (`Calls.AnswerGate`).
- A failed `register` insert is always reported as "User bereits registriert.", whatever the store exception was (`Messages.RepliesTo`).
- A store exception during `reportsick` is not caught. The turn ends without a reply (`Outcome.Faulted`).
- `reportsick` replies with its sign-off text even when the sender has no row, because the update then changes nothing.
- `getParticipants` reads every row and filters on `attends` itself. A store exception there is swallowed, and the targets gathered so far are used.
- The bot has no `checkin` command, so nothing sets `attends` back to true.

## Model

| member | source | states |
|---|---|---|
| Text.LowerChar | Bots/CallingBot.cs:146 | lower-casing maps each capital letter (ASCII and Latin-1) to its small letter and keeps every other character. The result is never a capital. White space is neither created nor removed |
| Text.ToLower | Bots/CallingBot.cs:153 | `ToLower` keeps the length, turns each capital into its small letter (code point plus 32) and keeps every other character. So the result holds no capital, keeps white space at every index, and a string without capitals, such as a lowered one, comes back unchanged |
| Text.Trim | Bots/CallingBot.cs:153 | `Trim` returns a slice `s[lo..hi]` with only white space outside it, and the slice neither starts nor ends with white space |
| Text.LeadingWhiteSpace | Bots/CallingBot.cs:153 | the count of leading white-space characters: all of them are white space, and the next one is not |
| Text.TrailingWhiteSpace | Bots/CallingBot.cs:153 | the count of trailing white-space characters: all of them are white space, and the one before them is not |
| Text.TrimIdempotent | Bots/CallingBot.cs:153 | trimming twice equals trimming once |
| Text.LeadingWhiteSpaceOfLower | Bots/CallingBot.cs:153 | lowering does not change the count of leading white space |
| Text.TrailingWhiteSpaceOfLower | Bots/CallingBot.cs:153 | lowering does not change the count of trailing white space |
| Text.TrimToLowerCommute | Bots/CallingBot.cs:153 | trimming then lowering equals lowering then trimming |
| Messages.IsNullOrEmpty | Bots/CallingBot.cs:140 | `String.IsNullOrEmpty`: null or the empty string. What it decides is stated by `Messages.CommandToken` |
| Messages.CommandToken | Bots/CallingBot.cs:138-155 | non-empty text gives the trimmed, lowered text. Otherwise a card value gives its lowered `type`, or "." when the type is null or empty. No token is produced, so nothing is sent, exactly when the text is null or empty and the card value is null. Every token is lower case, and a card token is never empty |
| Messages.TextOverridesCard | Bots/CallingBot.cs:140-154 | when the text is non-empty the card value does not affect the token |
| Messages.TextTokenIsNormal | Bots/CallingBot.cs:153 | a non-empty text token is already trimmed and lowered: normalising it again gives it back |
| Messages.Route | Bots/CallingBot.cs:161-408 | the switch picks the command whose case label equals the token, and otherwise the default case carrying the token unchanged |
| Messages.RouteKeyword | Bots/CallingBot.cs:161-404 | each case label routes back to its own command, so labels and commands are in one-to-one correspondence |
| Messages.DotIsUnknown | Bots/CallingBot.cs:146 | "." (the card fallback) is no case label |
| Messages.UnknownTokenEchoed | Bots/CallingBot.cs:405-406 | a token that is no case label routes to the default case and gets exactly one reply: the echo of that token |
| Messages.RepliesTo | Bots/CallingBot.cs:373-406 | every chat command sends at most one reply, and only `helloworld` sends none. `register` answers "User bereits registriert." exactly when the insert failed |
| Messages.Rendered | Bots/CallingBot.cs:376-406 | the greeting is "Hallo " + name + its fixed suffix, the sign-off "Okay, " + name + its fixed suffix, the refusal exactly "User bereits registriert.", and the echo the fixed prefix followed by the token, which can be read back from it. Each kind starts with its own letter |
| Messages.RenderedInjective | Bots/CallingBot.cs:376-406 | two messages with the same reply text are the same message, so the reply identifies the command outcome and the name or token in it |
| Roster.AttendingTargets | Bots/CallingBot.cs:431-447 | the targets of the rows read, in read order, keeping the attending ones; never more targets than rows. `Roster.AttendingTargetsSound` and `Roster.AttendingTargetsComplete` state what it keeps |
| Roster.RowsRead | Bots/CallingBot.cs:431-457 | the rows read are a prefix of the table's read order: all of them unless a `Read` raises, and otherwise those before the failing `Read` |
| Roster.Without | Bots/CallingBot.cs:373-374 | removing an id keeps exactly the targets with other ids |
| Roster.AttendingTargetsSound | Bots/CallingBot.cs:431-447 | every target comes from a row that was read and is attending, and carries that row's display name |
| Roster.AttendingTargetsComplete | Bots/CallingBot.cs:431-447 | every attending row read yields its target, at the position given by the number of attending rows read before it, so read order is kept |
| Roster.AttendingTargetsPrefix | Bots/CallingBot.cs:453-457 | the targets gathered before a failing `Read` are a prefix of the full list |
| Roster.AttendingTargetsEmpty | Bots/CallingBot.cs:421-457 | the list is empty exactly when no row read is attending |
| Roster.AttendingTargetsFrame | Bots/CallingBot.cs:426-447 | rows that are not read do not affect the list |
| Roster.AttendingAfterAbsent | Bots/CallingBot.cs:373-374 | clearing `attends` for one id removes exactly that id's target and keeps the rest in order |
| Roster.WithoutAppend | Bots/CallingBot.cs:373-374 | removing an id distributes over appending one target |
| Roster.AttendingTargetsAppend | Bots/CallingBot.cs:429-447 | reading two runs of rows one after the other yields their two target lists one after the other |
| Roster.AttendingAfterRegister | Bots/CallingBot.cs:378-381 | a new attending row, read at any position, adds its target to the old list between the targets read before it and those read after it; the other targets keep their order |
| Roster.InsertKeepsWellFormed | Bots/CallingBot.cs:381 | inserting a new key at any position of the read order keeps every key listed exactly once |
| Roster.EmployeeTable.Insert | Bots/CallingBot.cs:378-393 | the insert succeeds exactly when the id is new and the store does not fail. On success the row (name, attends true) is added and the id is placed at the position the store chooses in the read order. On failure nothing changes |
| Roster.EmployeeTable.MarkAbsent | Bots/CallingBot.cs:373-374 | the update clears `attends` for the sender's row only, changes nothing when that id has no row, and reports whether the store failed |
| Roster.EmployeeTable.Participants | Bots/CallingBot.cs:420-458 | the loop returns the attending targets of exactly the rows read before any failing `Read`, in read order |
| Webhook.ProcessNotification | Bots/CallingBot.cs:72-96 | the notification processor is invoked exactly when authentication says the request is valid |
| Webhook.InvalidIsForbidden | Bots/CallingBot.cs:85-89 | an invalid request gets 403 and the processor is not invoked, so what the processor would do has no effect |
| Webhook.ValidPassesThrough | Bots/CallingBot.cs:80-84 | a valid request gets exactly the processor's response |
| Webhook.ExceptionIsServerError | Bots/CallingBot.cs:91-95 | an exception from validation, or from the processor on a valid request, gives 500 with the exception text as the body |
| Webhook.StatusClassification | Bots/CallingBot.cs:76-95 | the status is 403, 500 or the processor's own. A 403 the processor did not produce means the request was invalid, and a 500 it did not produce means validation or the processor raised an exception |
| Calls.Directory | Bots/CallingBot.cs:506 | the directory part of a path: a prefix that ends in '/', with no '/' after it in the path |
| Calls.Resolve | Bots/CallingBot.cs:506-534 | a relative path resolved against the base URL keeps the base's scheme and authority and replaces the last segment of its path (section 5.2.3 of RFC 3986) |
| Calls.IncomingCallId | Bots/CallingBot.cs:489-498 | a call id is returned exactly for a `Created` notification about a call in state `Incoming`, and it is that call's id |
| Calls.AnswerCommands | Bots/CallingBot.cs:501-545 | the first command answers the given call with audio, the callback `callback` and the pre-fetched `audio/speech.wav`, both resolved against the bot's base URL. When the Answer task ran to completion it is followed by a 5000 ms delay and a prompt of the pre-fetched URI for the same call; otherwise nothing follows. No command after the first is an Answer |
| Calls.OnNotification | Bots/CallingBot.cs:487-498 | no command exactly when the gate yields no call id; otherwise the first command answers that call and no later command is an Answer |
| Calls.AnswerGate | Bots/CallingBot.cs:491-496 | a notification issues any command exactly when it is about a call with change type `Created` and state `Incoming`, and its first command answers that call |
| Calls.AnswerOnlyFirst | Bots/CallingBot.cs:504-543 | a notification issues at most one Answer, and the Answer comes first |
| Calls.PromptFollowsAnswer | Bots/CallingBot.cs:521-541 | PlayPrompt is issued only if the Answer task ran to completion. It comes right after a 5000 ms delay that follows the Answer of the same call, and its medium has the same URI as the medium the Answer pre-fetched |
| Calls.CompletedAnswerPlaysPrompt | Bots/CallingBot.cs:524-540 | an incoming call whose Answer ran to completion gets the prompt `audio/speech.wav` under the bot base URL |
| Calls.CallbackAndPromptAreSiblings | Bots/CallingBot.cs:506-513 | the callback address and the prompt share the base URL's origin and directory |
| Bot.Handled | Bots/CallingBot.cs:157-408 | the effect of one routed command on the table and the reply. `Bot.OnlyRosterCommandsWrite` and `Bot.NewGroupCallTargets` state its properties |
| Bot.OnlyRosterCommandsWrite | Bots/CallingBot.cs:157-408 | only `register` and `reportsick` write the table. `reportsick` changes no key, `register` adds at most the sender's, and every command keeps each key listed once in the read order |
| Bot.NewGroupCallTargets | Bots/CallingBot.cs:262-368 | `newgc` changes nothing and places an outgoing audio call whose targets are exactly `AttendingTargets` of the rows read before any failing `Read`. Each target is an attending row with its display name. With no failing `Read`, every attending employee is invited |
| Bot.CallingBot.SendResponse | Bots/CallingBot.cs:157-408 | carries out the routed command on the table exactly as `Handled` states: the roster commands' effects and replies, the `newgc` call to the attending rows, echo for unknown tokens, and the Graph commands delegated |
| Bot.CallingBot.OnMessageActivity | Bots/CallingBot.cs:138-155 | nothing is sent and the table is unchanged when there is no token. Otherwise the effect is that of the normalised token's command |
| Bot.ReportSickLeavesNextCall | Bots/CallingBot.cs:361-376 | after a `reportsick` that went through, the sender gets the sign-off text and the next group call invites no target with the sender's id |
| Bot.RegisterJoinsNextCall | Bots/CallingBot.cs:361-383 | after a first `register`, the sender is greeted. The next group call invites the previous attending targets in their old order, with the sender inserted among them, and last when the store appends the row |
| Bot.RegisterTwiceKeepsFirst | Bots/CallingBot.cs:378-390 | a second `register` of the same id is answered "User bereits registriert." and leaves the table, and the first display name, as they were |

## Left out

- `OnMembersAddedAsync` (Bots/CallingBot.cs:98-136), the proactive welcome message: it is adapter and network plumbing only.
- Bot.CallingBot.SendResponse: the six Graph-calling commands (`createcall`, `transfercall`, `joinscheduledmeeting`, `inviteparticipant`, `new`, `newc`) appear only as an opaque `GraphDelegated` outcome. Their replies depend on Microsoft Graph responses and their targets are hard-coded ids.
- Bot.NewGroupCallTargets: a failure of the Graph request that places the `newgc` call (`AddAsync`, Bots/CallingBot.cs:368) is not modelled. The turn would then end in an exception, while the model reports `GroupCallPlaced`. Neither case sends a reply or writes the table.
- The adaptive cards sent by `help` and `report` are modelled as names (`InfoCard`, `ReportCard`). Helpers/CardHelper.cs only loads JSON templates from disk and is not part of this model.
- Request authentication, the notification processor and the serializer are library code. Their outcomes are inputs (`Validation`, `Processing`). The processor's handling of batches, and the fan-out of one event per notification, are not modelled.
- `Task.Run`, `ContinueWith`, `ForgetAndLogExceptionAsync` and the real `Task.Delay`: concurrency and timing are out of scope. Only the order of commands and the 5000 ms constant are kept.
- Exceptions raised by the Answer or PlayPrompt requests are neither observed nor logged. `await answerTask.ContinueWith(async ...)` (Bots/CallingBot.cs:521) awaits only the outer task. A faulted Answer is read only through `Status`, and the inner task that holds the delay and `PlayPrompt` is never awaited. `ForgetAndLogExceptionAsync` therefore sees neither exception, and `BotAnswerIncomingCallAsync` returns before the 5000 ms delay. Here the Answer's outcome is only its `TaskStatus`, and a failing `PlayPrompt` is not modelled.
- SQL text, the connection string and the blocking `Console.ReadLine` in `runSQL`: the table is an abstract keyed map. The model therefore does not capture what the string-concatenated statements do with a name or id containing an apostrophe (a failed or altered statement).
- Roster.EmployeeTable: a reader of `SELECT ... FROM Employee` without `ORDER BY` has no defined row order. The model keeps one order per table state, and `Insert` places a new row at a position the caller chooses (`insertAt`). A store that reorders existing rows between reads is not modelled.
- Roster.EmployeeTable.Insert: assumes `id` is the table's primary key, so inserting an existing id fails. The schema is not part of the source. Without that key, a second `register` would add a duplicate row.
- A NULL `displayname` or `attends` column, which would raise a non-SQL exception in `getParticipants`: rows always hold a name and a flag here.
- Messages.CommandToken: the card value is reduced to its `type` field. Indexing a value that is not a JSON object (a runtime binder error) is not modelled.
- Text.LowerChar: `ToLower` is culture-sensitive. Only ASCII and Latin-1 capitals are lowered here, and other scripts are kept unchanged.
- `Guid.NewGuid()` resource ids on media: they are nondeterministic and are left out of the `Answer` and `PlayPrompt` commands. The Answer's pre-fetch (Bots/CallingBot.cs:514) and the prompt (Bots/CallingBot.cs:535) draw two different fresh ids, so the prompt names the pre-fetched medium's URI but not its resource id.
- Console and Graph logging, including setting the logger's correlation id.
