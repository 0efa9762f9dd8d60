# Michaelbot, modelled and proved in Dafny

Michaelbot announces deploys per Slack channel. A channel has a queue of deploys, whose head is the running one, and a
history of completed ones. A bot turns `/deploy` commands into queue steps and raises events; a topic manager folds the
events into a sign in the channel topic; a dashboard shows the history to whoever redeemed a one-time token.

`dafny verify dfyconfig.toml` checks the whole project.

## What is modelled, and how

- **Queues and histories** (`Clock`, `Deploys`, `ChannelProtocol`, `HistoryQueries`). A channel as a value, the operations of
  `ChannelDeploys` on it, the invariant of a channel (`Disciplined`), and the two ways of asking for the recent history.
- **The stores on the heap** (`GoSlices`, `InMemory`, `ChannelDeploysOnHeap`, `BotOnHeap`). Go slices are windows
  (array, offset, length, capacity); stored queues, working copies, listings and extracts share arrays as in the
  original. A ghost map mirrors every array with its owner. Each method is proved equal to its function on values, and
  what was handed out earlier is followed through every later run.
- **The Bolt store** (`ByteKeys`, `JsonSlices`, `BoltStore`, `BotOverBolt`). History entries keyed by 8 big-endian bytes and
  visited in byte order, and decoded into one variable, whose slices they share; the bot over this store, and what its runs
  have in common with the same runs in memory.
- **Runs of the bot** (`BotProtocol`, `Commands`, `BotRuns`, `Waiting`, `Subscribers`). The command switch with its guards
  and events; what each text does, field by field and for every world; and what holds after every run of requests.
- **The topic** (`Topic`, `TopicRuns`). The replacement of one emoji by another, and the topic over whole runs.
- **Message text** (`Text`, `CharClasses`, `Escape`, `EscapeLaws`, `LinkLaws`, `WrittenLinks`, `EscapedTexts`, `Decoding`,
  `Collisions`, `EscapeInPlace`, `References`, `WordForms`, `Glyphs`, `ReferenceLaws`, `PullRequestLaws`, `RoundTrips`).
  Hand-written matchers for the fixed patterns, and what they match written out character by character. The proofs read a message as a sequence of items (plain characters, `&`, `<`, `>`, whole user references)
  and follow each pass item by item; glyphs are items that know whether escaping keeps them.
- **Access to the history** (`Tokens`, `Access`, `Visitors`, `Authenticator`). One-time tokens, and the cookie that collects grants.
- **The messenger** (`Messenger`). Double-checked locking as interleaved steps of any number of senders.

## Assumptions

- A bot request, or a look at a history on the dashboard, is one atomic step. The original takes no lock between `GetQueue` and `SetQueue`, so the queue laws are
  about requests served one after the other.
- The clock is not zero and never goes back; its readings are parameters (`now`, then `later`).
- Events reach the topic manager in the order in which they are raised, and Slack's answers about topics are the ones of
  a map from known channels to topics. The original starts a goroutine per handler and event.
- Deploys handed to `Start` by the bot are fresh from `deploy.New`. The outcome of `IssueToken` is part of the request.
- A signed cookie is an ideal record that only this server can make; `exp` of section 4.1.4 of RFC 7519 counts as valid
  while the Unix time is not greater than it, as the JWT library has it.
- JSON encoding and decoding in the Bolt store do not fail, and a queue comes back as it was stored. An array is decoded into
  a slice as the documentation of `encoding/json` has it: the slice is cut to length zero and appended to; `null`, which is
  how no references are stored, makes it nil.
- Words of a subject are shorter than the token limit of `bufio.Scanner`.
- `Deploy` is a value here because the original copies it wherever it is stored; its pointer methods are functions from the
  old value to the new one. Methods such as `Load`, `Settle` or `Filter` are parts of the original's methods.

## Where the code and its documentation differ

The model follows the code.

- `IssueToken` promises 2^24 attempts; the code makes 2^20 + 1 (`auth/one_time_token_authenticator.go:23-34`).
- The project's own README says that announcing a deploy again updates its subject (`README.md:116`); the code answers that
  the user is in the queue already and changes nothing (`deploy/channel_deploys.go:39-41`).
- The pattern for pull request addresses writes `github.com` with an unescaped dot, which matches any character
  (`deploy/references.go:12`); the model keeps that.

## Properties that hold under a condition

- Decoding an escaped message gives the message back for all messages without `<http://` and `<https://`, but not for all
  messages: `Decoding.DecodeUndoesEscapeIff` gives the exact condition (`Lossless`).
- Two different messages can look the same escaped (`Decoding.LinksCanCollide`). `Collisions.CollidesIff` says exactly which
  messages share their escaped form with another one: those with a link that has `>` or `&gt;` right behind its scheme, or
  anywhere a `<`, or an `&lt;` that does not make a mention `<@ID|name>` together with the closing bracket of the link. An
  `&gt;` elsewhere in a link is harmless (`Collisions.GtInsideIsAlone`), because a `>` in its place would close the link.
- The topic follows the channel over every run exactly for the topics that `Topic.Dependable` describes
  (`TopicRuns.DependableIff`); a `:no_entry:` of one's own in the topic is not restored, unless it starts with the closing
  colon of a done emoji, and two done emojis that share a colon are not stable under two deploys in a row.
- `LeaveQueue` keeps the queue invariant exactly if the user does not own a running deploy with others waiting behind it
  (`ChannelProtocol.LeaveKeepsDisciplineIff`); only the guard in the bot prevents that.
- The backward scan of `Since` is right for all times exactly if the history is sorted
  (`HistoryQueries.SuffixSinceIsNotBeforeIff`).
- Escaping keeps all user references of every message (`ReferenceLaws.EscapeKeepsUserReferences`). It keeps the pull request
  references of a message if and only if it changes no character of what the patterns take
  (`PullRequestLaws.EscapeKeepsPullRequestsIff`): in every word with a pull request, what the pattern takes, with the
  character behind the number of an address, comes before the first `&`, `<` or `>` that is neither a bracket of a link nor
  an ampersand inside one. It never creates a reference. `RoundTrips.EscapeHidesPullRequest` is one family of messages that
  lose one.
- The history that Bolt hands out has the right references if and only if each entry repeats what its decoding writes over
  in the array it shares with entries before it (`BoltStore.ReferencesAreRightIff`): always if no two neighbours have any
  (`BoltStore.LonelyReferencesAreRight`), and never if two neighbours have different pull requests at the same place
  (`BoltStore.NeighboursAreConfused`), because all entries are decoded into one variable (`deploy/bolt_db_store.go:130`).
- Over Bolt nothing is stored for a blank channel; for every other channel a run leads to the same queue, history, events
  and answers over both stores (`BotOverBolt.StoresAgree`, `BotOverBolt.AnswersAgree`).

## Model

| member | source | states |
|---|---|---|
| ChannelProtocol.StartKeepsDiscipline | deploy/channel_deploys.go:34-55 | Announcing a fresh deploy keeps the channel invariant: distinct users, a started head, only fresh deploys behind it, a history in order of time |
| ChannelProtocol.CompletionKeepsDiscipline | deploy/channel_deploys.go:57-101 | Completing the head keeps it too: the history stays chronological and ends before the new head starts |
| ChannelProtocol.FinishIsRecorded | deploy/deploy.go:107-113 | A finished deploy goes down in the history with the time of finishing and is otherwise what it was |
| ChannelProtocol.AbortIsRecorded | deploy/deploy.go:115-122 | An aborted one goes down with the time, as aborted, and with the reason |
| ChannelProtocol.LeaveKeepsDiscipline | deploy/channel_deploys.go:103-113 | A user who does not own the running deploy may leave at any time without breaking the invariant |
| ChannelProtocol.LeaveKeepsDisciplineIff | deploy/channel_deploys.go:103-113 | Leaving breaks the invariant exactly when the owner of the running deploy leaves while someone waits |
| InMemory.Queue.Add | deploy/deploy.go:17-19 | Appends the deploy; in place behind the window if there is room, else on a fresh array that leaves the old one alone |
| InMemory.Queue.Current | deploy/deploy.go:21-27 | The head, or the zero deploy for an empty queue, and which of the two it is |
| InMemory.Queue.Pop | deploy/deploy.go:29-40 | Takes the head away by moving the window; the array stays as it is; an empty queue gives the zero deploy and stays |
| InMemory.Queue.IsUserInQueue | deploy/deploy.go:42-50 | True exactly if some deploy of the queue belongs to the user |
| InMemory.Queue.RemoveUser | deploy/deploy.go:52-68 | Keeps the other users' deploys in order, on an array of its own, or changes nothing if the user is not there |
| InMemory.Queue.ReplaceHeadWith | deploy/deploy.go:70-72 | Overwrites the head in the shared array and no other cell of it |
| InMemory.InMemoryStore.GetQueue | deploy/in_memory_store.go:22-34 | Hands out the stored window; an unknown channel gets an empty queue; no queue or history changes |
| InMemory.InMemoryStore.SetQueue | deploy/in_memory_store.go:36-42 | Stores the window of one channel, whatever it is; if it is on a new array or carries on where the stored one ends, no other queue, no history and no earlier extract changes, although arrays are shared |
| InMemory.InMemoryStore.All | deploy/in_memory_store.go:44-54 | The whole history in a copy that shares nothing |
| InMemory.InMemoryStore.Since | deploy/in_memory_store.go:56-80 | The suffix found by the backward scan, put on record as an extract that shows the same deploys ever after; every array known before, its owner and its contents stay, so listings outlive the query |
| InMemory.InMemoryStore.AddToHistory | deploy/in_memory_store.go:82-95 | Appends to the history of one channel; no other history, no queue and no extract changes |
| InMemory.ChannelsShareNothing | deploy/in_memory_store.go:8-13 | Two channels never share an array, nor do a queue and a history |
| InMemory.PutQueue | deploy/in_memory_store.go:36-42 | A queue window that carries on where the stored one ends may be stored without disturbing anything else |
| InMemory.PutHistory | deploy/in_memory_store.go:82-95 | The same for a history to whose array an entry was appended, extracts included |
| ChannelDeploysOnHeap.ChannelDeploys.All | deploy/channel_deploys.go:22-26 | Hands out the queue itself, not a copy; the listing is followed from then on |
| ChannelDeploysOnHeap.ChannelDeploys.Current | deploy/channel_deploys.go:28-32 | The head of the queue, if there is one; nothing changes |
| ChannelDeploysOnHeap.ChannelDeploys.Start | deploy/channel_deploys.go:34-55 | Does to the heap what the protocol does to the value, for this channel only; earlier listings age at most |
| ChannelDeploysOnHeap.ChannelDeploys.Finish | deploy/channel_deploys.go:57-78 | The same for finishing, with the next head started in the array shared with the listings |
| ChannelDeploysOnHeap.ChannelDeploys.Abort | deploy/channel_deploys.go:80-101 | The same for aborting with a reason |
| ChannelDeploysOnHeap.ChannelDeploys.LeaveQueue | deploy/channel_deploys.go:103-113 | The same for leaving the queue |
| HistoryQueries.SuffixSinceIsNotBefore | deploy/in_memory_store.go:67-79 | On a sorted history the scan finds exactly the deploys that did not start before the given time, in order |
| HistoryQueries.SuffixSinceIsNotBeforeIff | deploy/in_memory_store.go:67-79 | It does so for all times if and only if the history is sorted |
| HistoryQueries.StoresDifferByTies | deploy/bolt_db_store.go:164-197 | Bolt's answer is a suffix of the in-memory answer, and the prefix it drops is the deploys that started at that very time |
| BotOnHeap.Bot.ServeHTTP | bot/bot.go:53-183 | One request does to the heap, to the events and to the answer what the protocol says, whatever the command |
| BotOnHeap.Bot.ServeDone | bot/bot.go:90-115 | `done`: completes the head, raises the event that follows, and answers whether the deploy was one's own |
| BotOnHeap.Bot.ServeAbort | bot/bot.go:116-153 | `abort`: aborts one's own running deploy, or else leaves the queue |
| BotOnHeap.Bot.ServeStart | bot/bot.go:162-182 | Any other text announces a deploy: started, queued, or refused |
| BotOnHeap.Bot.ShowHistory | dashboard/dashboard.go:23-54 | A look at a history, whole or since a time, shows the history of the protocol and leaves every queue, history, listing and extract as it was |
| BotOnHeap.Bot.ServeAll | main.go:97-100 | Over a run of commands and looks at histories, in any order on the one store, the heap follows the protocol, every earlier listing keeps its deploys but for start times set once, and every extract is unchanged |
| Commands.TrimSpaceOf | bot/bot.go:76 | Trimming takes away exactly the white space, character by character, on either side of the text |
| Commands.EveryTextHasParts | bot/bot.go:76 | Every text is a trimmed one between two gaps, so the laws of the commands speak of every request |
| Commands.RefusedChangesNothing | bot/bot.go:54-67 | A request that is not a POST, not signed or not for `/deploy` changes nothing and is told so, in this order |
| Commands.HelpIsGiven | bot/bot.go:79-80 | `help` and the blank text are answered with the help and change nothing |
| Commands.StatusShowsTheQueue | bot/bot.go:81-89 | `status` shows the whole queue, or that nothing runs, and changes nothing |
| Commands.HistoryGivesTheLink | bot/bot.go:154-161 | `history` answers the link with the token, or the error, and changes nothing |
| Commands.DoneCompletesTheHead | bot/bot.go:90-115 | In every world, `done` puts the head in the history with its time, starts the next deploy, and answers and announces just that; with an empty queue it changes nothing |
| Commands.OwnerAborts | bot/bot.go:116-145 | In every world, `abort`, or `abort` with a reason behind one blank, from the owner of the head puts the head in the history as aborted for that reason, starts the next deploy, and answers and announces just that |
| Commands.OtherLeaves | bot/bot.go:146-153 | From anybody else it takes all deploys of that user out of the queue and keeps the others in order, or says that there are none, or that nothing runs |
| Commands.SubjectAnnounces | bot/bot.go:162-182 | Any other text announces a deploy with that text, escaped, as its subject: started if the queue is empty, put at its end if not, and refused exactly if the user is in the queue |
| BotRuns.ServeMoves | bot/bot.go:78-182 | A request is one allowed move of one channel, with exactly the events of that move; nobody withdraws the running deploy |
| BotRuns.EveryRunIsDisciplined | bot/bot.go:53-183 | Every reachable channel satisfies the invariant |
| BotRuns.EventsTellTheState | bot/bot.go:98-145 | The deploys announced as started are, in order, those of the history and the running one; the last event tells what the channel does now |
| BotRuns.StartedEventsCountDeploys | bot/bot.go:98-182 | One `DeployStarted` per deploy that ran or runs, and the last event is one exactly while a deploy runs |
| BotRuns.DrainEventsExactly | bot/bot.go:104-145 | `DeployCompleted` or `DeployAborted` is raised by exactly the requests that drain the queue |
| BotRuns.Conservation | deploy/channel_deploys.go:34-113 | First in, first out: the deploys admitted and not withdrawn, as booked from requests and answers alone, are the history followed by the queue |
| BotRuns.HistoryRecordsOutcomes | deploy/channel_deploys.go:57-101 | Over every run the history has one entry per deploy answered as done, interrupted or aborted, in order, with the time of that request and the reason that was answered, and none for a finished one |
| BotRuns.SinceOnReachableHistory | deploy/in_memory_store.go:56-80 | On every reachable history the scan finds what did not start before the time, and the stores differ by ties only |
| Waiting.BoundedWaiting | deploy/channel_deploys.go:57-113 | A deploy at position p moves forward one place per completion, whatever else happens, and after p completions runs or has run, unless withdrawn |
| Subscribers.ProposedSubscribers | deploy/deploy.go:85-92 | The subscribers of a new deploy are exactly the users mentioned in the text of the command, before trimming and escaping |
| Subscribers.ProposedPullRequests | deploy/deploy.go:85-92 | Its pull requests are those of the text if and only if escaping spares them, and never more |
| Subscribers.SubscribersAreMentioned | bot/bot.go:162-163 | In every reachable channel each deploy was proposed by its user in a request for that channel and subscribes the users that request mentions |
| Topic.RestoredIff | bot/slack_topic_manager.go:45-57 | Marked and unmarked, a topic is the old one if and only if no done emoji, stepping from left to right, stands before a `:no_entry:` |
| Topic.CleanTopicIsRestored | bot/slack_topic_manager.go:45-57 | A topic without `:no_entry:` is always restored, even where done emojis share a colon |
| Topic.MarkTwiceIff | bot/slack_topic_manager.go:24-29 | Marking twice is marking once if and only if no two done emojis overlap |
| Topic.MarkChangesIff | bot/slack_topic_manager.go:51-54 | A replacement changes the topic if and only if the emoji occurs in it |
| Topic.MarkedShowsInProgress | bot/slack_topic_manager.go:24-29 | A marked dependable topic shows no done emoji, and shows `:no_entry:` if there was a done emoji |
| Topic.SlackTopicManager.ChannelTopicReplace | bot/slack_topic_manager.go:45-57 | Replaces in a known channel, writes to Slack exactly if the topic changes, and leaves other channels alone |
| TopicRuns.Deliver | bot/slack_topic_manager.go:24-43 | Handling all events one by one leaves each channel with the topic its own events give it |
| TopicRuns.TopicShowsState | bot/slack_topic_manager.go:24-57 | Over every run a dependable topic is marked exactly while a deploy runs and is itself otherwise |
| TopicRuns.SignTellsTheTruth | bot/slack_topic_manager.go:24-57 | So a topic with a done emoji, without `:no_entry:` and without overlaps shows `:no_entry:` exactly while a deploy runs and is restored afterwards |
| TopicRuns.DependableIff | bot/slack_topic_manager.go:24-57 | The topic follows every run if and only if it is dependable to begin with |
| ByteKeys.BigEndianOrder | deploy/bolt_db_store.go:199-203 | For n bytes: byte order is numeric order, and different numbers have different keys |
| ByteKeys.ItobOrder | deploy/bolt_db_store.go:199-203 | The same for all uint64 and 8 bytes |
| ByteKeys.Itob | deploy/bolt_db_store.go:199-203 | The eight bytes written by shifting are the big-endian key |
| BoltStore.AppendAppends | deploy/bolt_db_store.go:115-119 | Writing under the next sequence number appends to what a cursor visits |
| BoltStore.AppendWrapsAround | deploy/bolt_db_store.go:115-119 | Only when the sequence wraps around, an entry goes to the front |
| BoltStore.PutStores | deploy/bolt_db_store.go:115-119 | Writing under any key keeps the bucket in key order, stores the deploy under that key in place of what was there, and leaves all other keys alone |
| BoltStore.BoltDBStore.GetQueue | deploy/bolt_db_store.go:41-69 | The queue stored last, or an empty one |
| BoltStore.BoltDBStore.SetQueue | deploy/bolt_db_store.go:71-93 | Stores the queue of one channel; for the blank channel the write is dropped |
| BoltStore.BoltDBStore.AddToHistory | deploy/bolt_db_store.go:95-127 | Appends to the history of one channel and touches nothing else; what happens at the blank channel and at the wrap-around is stated |
| BoltStore.BoltDBStore.All | deploy/bolt_db_store.go:129-162 | As many deploys as were appended, in that order, each with the user, subject, times, abortion and reason of its entry, and with slices of the arrays all were decoded into as its references |
| BoltStore.BoltDBStore.Since | deploy/bolt_db_store.go:164-197 | The same for those of them that started after the given time; all are decoded |
| JsonSlices.Unmarshal | deploy/bolt_db_store.go:147-155 | Decoding an array gives its elements, and writes them over the beginning of the array decoded into before, or moves on to a new one when that is full or nothing is stored |
| JsonSlices.AllRightIff | deploy/bolt_db_store.go:129-162 | For any row of arrays decoded into one variable: what was handed out is right if and only if each array repeats what it writes over |
| BoltStore.ReferencesAreRightIff | deploy/bolt_db_store.go:129-162 | An answer shows the references of each entry if and only if that holds for its pull requests and for its subscribers |
| BoltStore.LonelyReferencesAreRight | deploy/bolt_db_store.go:129-162 | So it does for every history in which no two neighbours have references of a kind |
| BoltStore.NeighboursAreConfused | deploy/bolt_db_store.go:129-162 | And it does not for any history in which two neighbours have different pull requests at the same place |
| BoltStore.ChannelDeploys.Start | deploy/channel_deploys.go:34-55 | Over Bolt, announcing does what the protocol says |
| BoltStore.ChannelDeploys.Finish | deploy/channel_deploys.go:57-78 | Over Bolt, finishing does what the protocol says; only when the sequence wraps around, the deploy goes to the front of the history |
| BoltStore.ChannelDeploys.Abort | deploy/channel_deploys.go:80-101 | Over Bolt, aborting does what the protocol says, with the same exception |
| BoltStore.ChannelDeploys.LeaveQueue | deploy/channel_deploys.go:103-113 | Over Bolt, leaving does what the protocol says |
| BotOverBolt.Bot.ServeHTTP | bot/bot.go:53-183 | One request over Bolt: the answer and the events of the protocol, and its effect on the store unless the channel is blank |
| BotOverBolt.Bot.ServeAll | main.go:84-93 | The same for a run of requests |
| BotOverBolt.StoresAgree | bot/bot.go:53-183 | Over every run, both stores end up with the same queue and history of every named channel, and the same events of it are raised |
| BotOverBolt.AnswersAgree | bot/bot.go:53-183 | After every run, a request for a named channel is answered the same over both stores |
| BotOverBolt.SinceOverBothStores | deploy/bolt_db_store.go:164-197 | After one and the same run, the in-memory answer to a query since a time is the deploys that started at that very time followed by Bolt's answer |
| EscapeLaws.LexIsFaithful | slack/util.go:16-20 | The items of a message spell the message |
| EscapeLaws.RestoreUsersOfEscaped | slack/util.go:17-20 | Escaping everything and restoring the references leaves exactly the references of the message bare and every other special character escaped |
| LinkLaws.RestoreLinksFlat | slack/util.go:22-29 | Restoring links unescapes exactly the brackets around a link and the ampersands inside it |
| LinkLaws.EscapedShowsItems | slack/util.go:16-32 | The escaped message, item by item |
| EscapedTexts.LinkIsKept | slack/util.go:22-29 | Whatever stands before and behind it, a link whose target has no bracket and none of the five white-space characters of `\s` comes out as it is, ampersands included |
| EscapedTexts.BrokenLinkIsEscaped | slack/util.go:12 | With one of these five characters in it, it is no link, and its brackets are escaped |
| EscapedTexts.ReferenceIsKept | slack/util.go:19-20 | A user reference comes out as it is |
| EscapedTexts.LoneBracketIsEscaped | slack/util.go:10-20 | A `<` that begins neither a reference nor a link comes out as `&lt;` |
| EscapedTexts.CharIsEscaped | slack/util.go:10-17 | Outside of links and references `&` and `>` come out as `&amp;` and `&gt;`, and every other character as it is |
| CharClasses.LettersAre | slack/util.go:13 | The characters of ids and names are these, listed |
| CharClasses.SpaceIsWhite | deploy/references.go:53-54 | White space between words is these 25 characters |
| Decoding.DecodeUndoesEscapeIff | slack/util.go:16-32 | Decoding `&lt;`, `&gt;` and `&amp;` in one pass gives the message back if and only if no link of it holds an ampersand written before `lt;`, `gt;` or `amp;`; otherwise the result is shorter |
| Decoding.DecodeUndoesEscapeWithoutLinks | slack/util.go:16-20 | In particular for every message without `<http://` and `<https://` |
| Decoding.EscapeIsInjectiveOnLossless | slack/util.go:16-32 | Different lossless messages look different escaped |
| Decoding.LinksCanCollide | slack/util.go:22-29 | Two different messages with links that look the same escaped, as an example |
| Collisions.CollidesIff | slack/util.go:16-32 | A message shares its escaped form with a different one if and only if some link of it is ambiguous: `>` or `&gt;` right behind the scheme, or anywhere a `<` or an `&lt;` that does not make a mention up to the closing bracket |
| Collisions.GtInsideIsAlone | slack/util.go:22-29 | `&gt;` further inside a link collides with nothing |
| EscapeInPlace.RestoreLinkIn | slack/util.go:23-29 | Overwrites the brackets of the match in the searched buffer, outside of which nothing changes, and returns the link |
| EscapeInPlace.RestoreLinksIn | slack/util.go:22-29 | Although matches are overwritten during the search, the result is that of the untouched text |
| EscapeInPlace.EscapeMessage | slack/util.go:16-32 | The three passes together; decodable exactly as said above |
| References.FindReferences | deploy/references.go:52-73 | Every word is tried against both patterns, and matches are collected in order |
| References.FindUserReferences | deploy/references.go:43-50 | The user references of a subject |
| References.FindPullRequestReferences | deploy/references.go:29-36 | The pull request references of a subject |
| WordForms.NameIsFound | deploy/references.go:19 | A word `@name`, with anything behind the name, is one user by name |
| WordForms.ReferenceIsFound | deploy/references.go:20 | A word that begins with `<@id`, a bar and `name>` is one user with that id and name |
| WordForms.OnlyMentionsAreFound | deploy/references.go:14-21 | No other word is a user |
| WordForms.ShortIsFound | deploy/references.go:11 | A word `owner/repo#number`, with at most one character behind it that is no letter, is that pull request |
| WordForms.OnlyShortIsFound | deploy/references.go:11 | Only such words are found by the first pattern |
| WordForms.AddressIsFound | deploy/references.go:12 | An address with either scheme, perhaps a bracket, any character for the dot of the host, and an end, a query, a fragment or a bracket behind the number is that pull request |
| WordForms.OnlyAddressIsFound | deploy/references.go:12 | Only such words are found by the second pattern |
| ReferenceLaws.EscapeKeepsUserReferences | deploy/references.go:43-50 | For every message at all, the user references found in the escaped message are those found in the message |
| PullRequestLaws.EscapeKeepsPullRequestsIff | deploy/references.go:29-36 | For every message, the pull request references of the escaped message are those of the message if and only if escaping changes no character of what the patterns take; there are never more of them |
| PullRequestLaws.WordEscaped | deploy/references.go:10-13 | The same word by word: an escaped word gives at most as many references, and the same ones exactly if what the pattern takes of it is spared |
| RoundTrips.UsersRoundTrip | deploy/references.go:14-21 | Users mentioned as Slack writes them (id and name) or by `@name`, joined by white space and escaped, are found again: all, in order, and no others |
| RoundTrips.PullRequestsRoundTrip | deploy/references.go:10-13 | Pull requests written `owner/repo#number` or as an address, bare or in brackets, are found again in the escaped message, in order and once each |
| RoundTrips.NoWordCountsTwice | deploy/references.go:59-71 | The two patterns of a kind exclude each other on every word, so no word counts as two references |
| RoundTrips.EscapeHidesPullRequest | deploy/references.go:10-13 | An example of losing one: a short reference right before `&`, `<` or `>` is found in the message and missed in the escaped one |
| Tokens.RandomTokenSource.Generate | auth/random_token_source.go:15-41 | Takes ceil(n/10) numbers; character k from the end is the one that the 6-bit slice k mod 10 of number k/10 selects |
| Tokens.RandomTokenSource.GenerateFrom | auth/random_token_source.go:27-40 | The loop: each pass fills one character from the back |
| Tokens.TokenCharacter | auth/random_token_source.go:17-40 | Character k from the end is the one listed for digit k mod 10, in base 64, of number k / 10 |
| Tokens.DrawsAreEnough | auth/random_token_source.go:28-31 | A number is drawn for every ten characters and for what remains of them |
| Tokens.OneTimeTokenAuthenticator.IssueToken | auth/one_time_token_authenticator.go:25-43 | Issues the first draw that is not outstanding and fails exactly if all 2^20 + 1 draws are; the books balance |
| Tokens.OneTimeTokenAuthenticator.Authenticate | auth/one_time_token_authenticator.go:46-56 | Accepts exactly an outstanding token, and not again |
| Tokens.AtMost62ToTheN | auth/random_token_source.go:17 | Of length n there are at most 62^n tokens: 64 characters, of which `u` and `U` occur twice |
| Tokens.OutstandingBound | auth/one_time_token_authenticator.go:9-13 | So never more than 62^n tokens of length n are outstanding |
| Authenticator.ChannelAuthenticator.ServeHTTP | auth/token_authenticator.go:29-61 | The middleware serves a request as the access protocol says, consuming the token |
| Authenticator.ChannelAuthenticator.GrantChannelAccess | auth/token_authenticator.go:63-95 | Extends the claims of an acceptable cookie, or fresh ones, and signs them |
| Access.EveryRunIsWellMinted | auth/token_authenticator.go:80-85 | Every cookie ever signed outlives all its grants by less than a second, and opens exactly the channels granted in its lineage |
| Access.CheckAccessIff | auth/channel_authorizer.go:57-72 | A cookie is accepted for a channel if and only if the channel was granted in its lineage at most 30 days ago |
| Access.DashboardIff | auth/channel_authorizer.go:25-55 | A request reaches the dashboard of a channel if and only if it asks for it, redeems no token and brings such a cookie |
| Access.DashboardNeedsToken | auth/token_authenticator.go:48-60 | So the latest grant for the channel in the lineage of that very cookie was made by an earlier visit for the channel that redeemed a live token at most 30 days before |
| Visitors.ChannelBeforeSlash | dashboard/dashboard.go:56-71 | The channel of a page is what stands in its path before the first slash, |
| Visitors.ChannelBeforeDot | dashboard/dashboard.go:56-71 | or without a slash before the last dot, |
| Visitors.ChannelIsPath | dashboard/dashboard.go:56-71 | or without either all of it; a leading slash does not count |
| Visitors.TokenInHeader | auth/token_authenticator.go:36-41 | The token is what follows `Bearer` and a blank in the header, |
| Visitors.TokenInForm | auth/token_authenticator.go:43-46 | or else the one in the form |
| Visitors.VisitorIsAnswered | auth/channel_authorizer.go:25-72 | After every run, a request without a live token changes nothing, and its answer, with the reason of a refusal, follows from its cookie: for one of this server, from the age of the cookie and of the grant in its lineage |
| Visitors.FutureCookieFails | auth/channel_access_token.go:31-51 | A cookie issued later than now is answered with a server error |
| Visitors.TokenIsRedeemed | auth/token_authenticator.go:48-60 | A live token is used up and pays for one cookie that opens the channel for 30 days |
| Access.TokensBalance | auth/one_time_token_authenticator.go:25-56 | Over every run the tokens issued are those that paid for a grant and those outstanding |
| Access.GrantsAreBounded | auth/token_authenticator.go:48-53 | There are never more grants than tokens issued |
| Access.GrantAddsOneChannel | auth/token_authenticator.go:63-95 | A new cookie opens the granted channel for 30 days and every other channel exactly as long as the old cookie would have, even if that one had expired and was forgotten |
| Messenger.OpenedAtMostOnce | slack/instant_messenger.go:33-58 | Under every interleaving of any number of senders a user name is opened at most once |
| Messenger.PostsGoToTheOpenedChannel | slack/instant_messenger.go:24-31 | Every message for a name is posted to the one channel opened for it |
| Messenger.CacheNeverChanges | slack/instant_messenger.go:55-57 | A channel in the cache is never replaced |
| Messenger.EveryRunEnds | slack/instant_messenger.go:33-58 | No deadlock: a run takes at most eight steps a sender, and one that cannot go on has brought everybody to the end of `SendMessage` |
| Messenger.DoneIsServed | slack/instant_messenger.go:24-58 | Over every run a sender at its end has asked for exactly this: one post to a channel it found, or one open and a post to the channel opened, or one open that failed |
| Messenger.EverySenderIsServed | slack/instant_messenger.go:24-31 | When nobody can go on, each name has been posted to, or has failed to open, as often as there are senders to it |

## Left out

- BotOverBolt.Bot.ServeAll: runs within which no history reaches 2^64 - 1 entries; what a single step does beyond that is stated by `BoltStore.ChannelDeploys.Finish` and `Abort`.
- EscapeInPlace.EscapeMessage: strings are sequences of characters, not of UTF-8 bytes; all patterns are ASCII.
- Messenger.OpenedAtMostOnce: senders are steps of a state machine and not methods, because interleaving is the point; what Slack answers is chosen freely at each step.
- Concurrent requests to the bot for one channel: there is no lock, so the queue laws are about requests served one after the other.
- The locks of `InMemoryStore`, including the one `Since` keeps for an unknown channel: the store is sequential here.
- Delivery of events out of order: a goroutine per event does not fix the order.
- HTTP, form parsing, response texts, GitHub and Slack clients, the verification of Slack's signature, JWT cryptography: input and output without deep properties.
- JSON documents and Bolt transactions: a bucket is its counter and its sorted entries.
- A general engine for regular expressions: the fixed patterns have matchers of their own, and the passes of `ReplaceAll` over a text are functions.
- Whether a one-time token belongs to the channel it was issued for: the code does not check it, so access is stated by the channel of the redeeming request.
- Notifications, the team directory, attachments and response formatters: they would add easy members only.
