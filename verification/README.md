# Verified model of the training platform

The platform serves lessons with quizzes and exercises, grades submissions, keeps the learners' solves in an
append-only log, and boots short-lived terminal pods for them. This project models its six stateful or algorithmic
parts in Dafny and proves what they are for.

`dafny verify dfyconfig.toml` checks everything.

**Scoring and its solve log** (`Json`, `JsonText`, `JsonScan`, `RecordCodec`, `LogText`, `LineText`, `SolveLog`,
`Limits`, `Durability`, `Survival`, `Losses`, `Journaling`, `Scoring`, `Serving`, `Grading`, `Standings`,
`Scoreboard`, `Sorting`). The log is a byte sequence. A record is written with the JSON printer's own escaping and
read by the scanner's pushdown automaton, which accepts exactly the texts of RFC 8259 (`JsonText`, `JsonScan`), so
that "a torn line never parses" is a fact about bytes. `Journaling` and `Scoring` hold classes over a file whose
writes may stop at any byte and whose syncs may fail. `Durability` is the transition system over whole runs: boots,
concurrent requests split into map update, write and sync, failed writes, killed processes and power cuts, in any
order. `Survival` says exactly which solves outlive a power cut, `Losses` gives the runs that lose one, and `Serving`
shows that the classes' calls are runs. A log of damaged and whole lines is described by one function,
`SolveLog.Pairs`, and every result about runs goes through `SolveLog.Write`: what one (possibly torn) write does to
what replay will find. `Limits` says in bytes which lines are over-long and that no run of moderate texts writes one;
`LogText` what a record looks like, and `LineText` what replay makes of any other line.

**Session pods** (`Expiry`, `SessionEngine`, `SessionProtocol`, `Sessions`). The engine is a class over a cluster
whose calls are atomic and may fail. The protocol is a timed transition system in nanoseconds in which keepalives
(get, read the clock, patch) and the collector (list, read the clock, delete one by one) interleave freely; deadlines
live in labels, printed as whole seconds and scanned back. Both use the same functions for labels, patch and doomed
pods, and `Sessions` shows that the engine's calls are runs of the protocol.

**Exposed-port host names** (`Router`, `HostNames`, `Gate`). The page's string expression and the server's greedy
regular expression, the latter as its rightmost match; and the suffix gate with `net.SplitHostPort` beneath it.

**Lesson compiler** (`Text`, `Html`, `Markdown`, `Blocks`, `Weaving`, `Placeholders`, `LostBlocks`, `DemoLinks`,
`Lesson`, `Agreement`, `Openings`, `Rerouting`, `Marks`, `Finishing`, `References`, `LostLessons`, `SilentLessons`,
and `Trimming`, `BlockText`, `Entities`, `Inlines`, `Rendering`, `QuizText`, `PageText`, `AnchorText`, `Terminals`).
All on strings: the tag expressions, two extraction passes, the line loop with its inline rewrites, first-occurrence
substitution, anchor and attribute expressions, and button rerouting. The source is described as text with numbered
holes (`Blocks.Weave`): filled with the blocks' own text it is the lesson, filled with placeholders it is the Markdown
that gets rendered, and `Finishing.LessonCompiles` carries the holes through to the finished page. The last nine
modules say the same things from the author's side: what is written, part by part, and what the page then holds,
character by character, each with the converse that nothing else is read that way.

**Perceptual hash** (`Bits`, `Arithmetic`, `Phash`) and **stream adapters** (`DockerStream`, `TerminalStream`,
`Resizes`).

`Concatenation`, `Decimal`, `Numerals`, `Search` and `Options` are shared.

## Where the code and its documentation part

- `internal/scoring/journal.go:23-26` says an acknowledged solve is on disk. It is when its `Append` returned nil and
  its record began a line (`Durability.Durable`, `Durability.AcknowledgedIffClean`). A learner, though, is told
  "correct" of every solve in memory. `Survival.SurvivesIff`: if no boot met an over-long line and all solves are
  non-empty UTF-8, that solve outlives every power cut if and only if it is not between its map update and its append;
  nor on a line that waits for a sync, be it its own, one that failed, or one that an earlier process never made; nor
  without a whole line, its append having failed or been glued onto a damaged line. `Losses.LoserNotDurable`,
  `Losses.RebootNotDurable` and `Losses.SmearedIsLost` are runs that lose such solves. A solve without user or
  challenge is acknowledged and never recovered (`Losses.EmptyIsLost`), and one with ill-formed UTF-8 is recovered
  with that replaced.
- The tail is healed only when the log is opened. After a part-failed append, the next one in the same process is
  glued onto it and lost with it, though it returns nil (`Losses.SmearedIsLost`); if nothing is appended after a
  failed append, this never happens (`Durability.OrderlyNeverSmears`).
- A log line of 1 MiB or more hides everything after it: an acknowledged solve is not recovered, and is appended again
  when it is submitted again (`Losses.LongLineHides`). That is the exact limit (`Limits.ReplaysAllIffShort`), and no
  run reaches it that writes records of moderate size, each at the beginning of a line (`Limits.SmallTextsFit`).
- `internal/content/content.go:160-162` says a lesson never ships silently with a missing challenge. Of the lessons
  whose blocks compile and whose text has no placeholder comment of its own, those that ship whole are exactly the
  ones in which each opening tag is closed before any other opening tag comes, and no block is in a code fence
  (`Openings.ShipsWholeIff`). Otherwise an opening tag registers nothing, as where it is never closed
  (`SilentLessons.UnclosedLesson`) or lies inside a block (`SilentLessons.SwallowedLesson`); or a block is registered
  and off the page (`Agreement.BlockLost`), as in a fence (`LostLessons.FencedLesson`) or as a quiz in an exercise
  (`SilentLessons.NestedLesson`). All four of these lessons compile.
- `PageToken` and `hostToken` fall back to different names for a pod without token characters
  (`HostNames.TokensAgree`); generated pod names always have some.

## Model

| member | source | states |
|---|---|---|
| Json.UnquoteInvertsQuote | internal/scoring/journal.go:95-101 | a quoted string reads back as itself with ill-formed UTF-8 replaced |
| Json.SanitizeFixes | internal/scoring/journal.go:95-101 | the replacement changes nothing exactly when the text is valid UTF-8 |
| LogText.ValidIsUtf8 | internal/scoring/journal.go:95-101 | the text that counts as valid is the UTF-8 form of some code points, surrogates excluded |
| LogText.Utf8IsValid | internal/scoring/journal.go:95-101 | and every such form is valid |
| LogText.RuneReads | internal/scoring/journal.go:95-101 | each form stands for its own code point only |
| LogText.QuoteIsSafe | internal/scoring/journal.go:95-101 | the printer leaves no angle bracket and no ampersand |
| LogText.PairReads | internal/scoring/journal.go:128-131 | two escapes that are a surrogate pair read as their code point |
| LogText.EscapeReads | internal/scoring/journal.go:128-131 | any other escape reads as its own code point, and a surrogate alone as the replacement character |
| RecordCodec.DecodeInvertsEncode | internal/scoring/journal.go:128-140 | a record is recovered as its own solve if and only if user and challenge are non-empty valid UTF-8; otherwise what is recovered is spelled out |
| RecordCodec.EncodeIsOneLine | internal/scoring/journal.go:95-101 | an encoded record has no raw newline, starts with a brace and a member name, and ends with a brace |
| LogText.RecordText | internal/scoring/journal.go:95-101 | the record of plain fields, character by character |
| Limits.RecordSize | internal/scoring/journal.go:95-101 | a record is at most six times as long as its fields, plus 34 |
| RecordCodec.TornNeverDecodes | internal/scoring/journal.go:128-140 | no strict non-empty prefix of a record parses as a solve |
| RecordCodec.GluedNeverDecodes | internal/scoring/journal.go:57-59 | a line that starts with a brace never parses once a record, torn or whole, is glued to it |
| JsonScan.CompleteIff | internal/scoring/journal.go:128-131 | the scanner accepts a line if and only if it is a value of the grammar of RFC 8259 with white space around it |
| LineText.LineMeans | internal/scoring/journal.go:128-140 | what replay makes of any line at all: a solve if and only if the line is an object whose last user and last challenge, under names that match without regard to case, are those non-empty texts, and no field of a record has a value of the wrong type |
| SolveLog.ReplayVisits | internal/scoring/journal.go:111-146 | replay visits exactly the solves on the lines before the first over-long one, in order (`Limits` says what is over-long) |
| Limits.ReplaysAllIffShort | internal/scoring/journal.go:124-145 | replay visits every solve of the log if no newline-free stretch reaches 1,048,576 bytes, and ends with the error exactly if one does |
| Limits.ReplaysLines | internal/scoring/journal.go:128-144 | of any lines shorter than that, the solves are visited in order and the lines that are neither blank nor a solve are counted |
| Limits.CarriageReturns | internal/scoring/journal.go:124-129 | a carriage return before the newline makes no difference |
| Limits.SmallTextsFit | internal/scoring/journal.go:124-127 | no log of a run is over-long if each append begins a line and its user, challenge and time stamp total at most 174,756 bytes |
| Limits.AcknowledgedIsRecovered | internal/scoring/journal.go:23-26 | in such runs every acknowledged solve is recovered at every later point |
| SolveLog.Write | internal/scoring/journal.go:91-106 | a write of any prefix of a record adds what replay makes of it exactly if the log was at a line start and the prefix is the whole record; on a damaged line it adds nothing and loses only that line |
| SolveLog.PairsNewline | internal/scoring/journal.go:69-88 | the healing newline changes no solve and settles all of them |
| SolveLog.SettledGrows | internal/scoring/journal.go:111-146 | solves on terminated lines survive anything written later |
| Durability.Durable | internal/scoring/journal.go:23-26 | in every run, whatever replay makes of an acknowledged solve's record is found wherever a later power cut leaves the log, and is recovered by a boot if no line is over-long |
| Durability.NoInventions | internal/scoring/store.go:187-198 | in every run, whatever solve a log cut anywhere holds, or replay hands out, is what replay makes of one that some process had set out to append |
| Durability.NoDuplicates | internal/scoring/store.go:159-198 | in every log of a run of sound solves whose boots met no over-long line, cut anywhere, the solves are pairwise distinct |
| Durability.MemoryMatchesLog | internal/scoring/store.go:151-182 | memory minus log is exactly the pairs between their two steps or whose append failed; they agree when nothing is under way and nothing failed |
| Durability.AppendedOnce | internal/scoring/store.go:159-182 | in every run, each process appends each pair at most once, only pairs in memory, and none that its boot replayed |
| Durability.AppendedNew | internal/scoring/store.go:159-198 | nor any that the log held at boot, if no line is over-long |
| Durability.AcknowledgedIffClean | internal/scoring/journal.go:91-106 | between its write and its sync a whole record is found by replay if and only if it began a line |
| Durability.OrderlyNeverSmears | internal/scoring/journal.go:69-88 | in every run in which no process appends after a failed append, no successful append lands on a damaged line |
| Survival.SurvivesUnlessAtRisk | internal/scoring/store.go:142-182 | in every run, what replay makes of a solve in memory that is not at risk is found wherever a power cut leaves the log, and recovered if no line is over-long |
| Survival.SurvivesIff | internal/scoring/store.go:142-182 | and if no boot met an over-long line, only such a solve is: in every serving state some power cut loses each solve at risk |
| Losses.Acknowledged | internal/scoring/store.go:142-182 | in any serving state with a clean log and no writer, a new solve's request can run through and ends acknowledged |
| Losses.LoserNotDurable | internal/scoring/store.go:159-182 | a run in which a learner told "correct" while another request appends is not recovered |
| Losses.RebootNotDurable | internal/scoring/journal.go:44-65 | a run in which a reboot recovers an unsynced line, nothing is under way or failed, and a power cut loses it |
| Losses.SmearedIsLost | internal/scoring/journal.go:91-106 | a run in which an append returns nil on a damaged line and its solve is not recovered |
| Losses.EmptyIsLost | internal/scoring/journal.go:128-140 | a run in which a solve without user or challenge is acknowledged and not recovered |
| Losses.LongLineHides | internal/scoring/journal.go:124-145 | a run in which an acknowledged solve behind a line of 1 MiB is not recovered, and is appended a second time |
| Losses.LongLineKeeps | internal/scoring/journal.go:124-145 | behind such a line a solve can wait for a sync and yet be on every log a power cut leaves |
| Journaling.Journal.OpenJournal | internal/scoring/journal.go:44-65 | opening heals the tail and touches nothing else, or fails and changes nothing |
| Journaling.Journal.TerminateLastLine | internal/scoring/journal.go:69-88 | the log ends at a line start, by at most one newline |
| Journaling.Journal.Append | internal/scoring/journal.go:91-106 | one write of the record's line is asked for; success means all of it is written and synced, failure leaves a prefix |
| Journaling.Journal.Replay | internal/scoring/journal.go:111-146 | the scan loop visits, counts and stops as the specification `SolveLog.Replay` does |
| Scoring.Store.Upsert | internal/scoring/store.go:84-92 | a challenge is added or replaced, or refused without a hash |
| Scoring.Store.RecordInMemory | internal/scoring/store.go:159-170 | adds the pair and reports whether it was new |
| Scoring.Store.RecordSolve | internal/scoring/store.go:151-155 | the log is asked for one append exactly when the pair is new |
| Scoring.Store.Grade | internal/scoring/store.go:119-146 | correct if and only if some flag accepts; only then is a solve recorded, and appended exactly when new |
| Scoring.Store.UseJournal | internal/scoring/store.go:187-198 | memory gains exactly what replay visits; nothing is written to the log |
| Scoring.Store.Solved | internal/scoring/store.go:201-205 | membership of the recorded pairs |
| Serving.Serve | internal/scoring/store.go:119-146 | a graded submission running alone is a run of the protocol from the state the store and log show to the one they show after it |
| Serving.Start | internal/scoring/journal.go:44-65 | opening the log and replaying it into an empty store is the protocol's boot |
| Serving.AppendIsRun | internal/scoring/journal.go:91-106 | every outcome of an append, whole or torn, synced or not, is a run |
| Scoring.Store.Standings | internal/scoring/store.go:270-310 | the walks and sorts produce a ranking, statistics and total as described below |
| Scoring.Aggregate | internal/scoring/store.go:274-289 | whatever order the maps are walked in, each learner's row holds their solve count and points |
| Scoring.Rank | internal/scoring/store.go:290-299 | the rows, each learner once, sorted |
| Standings.RankingUnique | internal/scoring/store.go:290-299 | two rankings of the same stored sets are the same sequence |
| Scoreboard.BestFirst | internal/scoring/store.go:294-299 | a ranking goes down by points, and up by name among equals |
| Scoreboard.LessMeans | internal/scoring/store.go:294-299 | the smaller name is a beginning of the larger, or has the smaller byte where they first differ |
| Scoreboard.RowOfOne | internal/scoring/store.go:274-289 | one solve gives its learner one solve and its challenge's value, or no points if that is unregistered |
| Scoreboard.RowsAdd | internal/scoring/store.go:274-289 | rows of separate sets of solves add up |
| Standings.RankingConserves | internal/scoring/store.go:270-310 | `Solved` sums to the number of recorded pairs; `Points` sums to value times solver count over the challenges |
| Standings.CountsFallShort | internal/scoring/store.go:301-309 | per-challenge counts miss exactly the solves of unregistered challenges |
| Expiry.LabelsRead | internal/session/session.go:265-279 | reading printed labels gives the sooner of the two deadlines, never later than the hard cap |
| Numerals.PrintIff | internal/session/session.go:265-279 | what is printed for a number is its numeral without a leading zero, after a minus sign if it is negative |
| Numerals.ScanIs | internal/session/session.go:265-279 | scanning gives the number of at most 64 bits that a text begins with, or 0 |
| Numerals.AtoiIff | internal/content/content.go:218-224 | a text is a number if and only if it is digits after at most one sign and fits 64 bits |
| SessionEngine.Engine.NewEphemeralInstance | internal/session/session.go:216-261 | the new pod carries both deadlines of one clock reading; a pod that never gets ready is deleted or at least labelled; no other pod changes |
| SessionEngine.Engine.Extend | internal/session/session.go:403-418 | only the idle label of that pod changes, and the reported expiry is the pod's own |
| SessionEngine.Engine.GCExpiredPods | internal/session/session.go:284-301 | exactly the managed pods expired at the clock reading go, but for refused deletes; the count is theirs |
| SessionEngine.Engine.Status | internal/session/session.go:384-397 | reports the pod's readiness and effective expiry |
| SessionEngine.Engine.DeletePod | internal/session/session.go:304-311 | deleting a missing pod succeeds; otherwise only that pod goes |
| SessionEngine.CollectorSpares | internal/session/session.go:284-301 | a listed pod is spared while both deadlines are ahead and taken from one second after either |
| Sessions.Boot | internal/session/session.go:216-261 | booting a pod under a new name is its creation in the protocol, or no step if it did not come to stay |
| Sessions.Keepalive | internal/session/session.go:403-418 | a keepalive is the protocol's get, clock reading and patch, or no step if it fails |
| Sessions.Collect | internal/session/session.go:284-301 | a pass of the collector is a run of the protocol from a tick to rest |
| SessionProtocol.HardCapFixed | internal/session/session.go:403-418 | no run changes a pod's hard-cap label, and its effective expiry never exceeds it |
| SessionProtocol.KeepaliveSafety | internal/session/session.go:403-418 | if each keepalive lands within `idleTTL` minus the collector's list-to-clock delay of the previous one's clock reading, no interleaving deletes the pod before its hard cap |
| SessionProtocol.BoundedLifetime | internal/server/server.go:335-361 | with successful deletes no pod outlives its hard cap, or its last keepalive plus `idleTTL`, by more than one tick, one pass and a second |
| Router.ParsePrints | internal/router/router.go:36 | the pattern's tail reads back what it spells, part by part |
| Router.GreedyMatch | internal/router/router.go:36 | the greedy pattern matches whenever any split does, and takes the rightmost |
| HostNames.EncodesIff | internal/router/router.go:36 | a host encodes an instance if and only if it is a newline-free text, "ip", four groups of at most three digits, a token of digits and small letters, and perhaps a port, a domain and an outer port, punctuated as the pattern says |
| HostNames.DecodeHost | internal/router/router.go:40-60 | the decoding loop does as the specification, with its three errors |
| HostNames.HostRoundTrip | internal/content/layout.go:427-429 | for every address, pod, port, newline-free prefix and router host, the page's host decodes to the same address, port and token, unless the router host itself encodes an instance, which then wins |
| HostNames.WrittenHostDecodes | internal/router/router.go:36-60 | every written host under a router host that encodes nothing itself: the octet error, the port error, or the dotted address, the port or the default, and the token |
| HostNames.HostWithoutPort | internal/router/router.go:51-59 | with octets below 256 and no port it decodes to them, the default port and the token |
| HostNames.LargeOctetRefused | internal/router/router.go:46-50 | an octet above 255 is refused wherever it stands |
| HostNames.PortsDecode | internal/router/router.go:52-58 | port 0 or above 65535 is refused, any other is the port |
| HostNames.PlainHostsEncodeNothing | internal/router/router.go:36 | a host without "ip" before a digit encodes nothing |
| HostNames.LongGroupEncodesNothing | internal/router/router.go:36 | nor does one whose only "ip" before a digit is followed by four digits or more |
| HostNames.NewlineDefeats | internal/router/router.go:36 | a host with a newline never decodes |
| HostNames.HostToken | internal/session/session.go:197-209 | the loop keeps exactly the token characters, or falls back to "s0" |
| HostNames.TokensAgree | internal/session/session.go:197-209 | page and server derive the same token if and only if the name has a token character |
| Gate.GateUnderPort | internal/server/server.go:294-307 | with a port on the router host, a name under it passes if and only if its front has no colon or bracket |
| Gate.GateWithoutPort | internal/server/server.go:294-307 | without one, a name under it passes if and only if its front is no host and port, or is one whose host ends in the router host |
| Gate.GateOpensIff | internal/server/server.go:294-307 | a host name, with or without a port, passes if and only if it is some front, a dot and the router host's name |
| Gate.SplitFinds | internal/server/server.go:294-299 | what splits is a host and port: no further colon or bracket, or the host in brackets |
| Gate.SplitOf | internal/server/server.go:294-299 | and every such text splits into its host |
| Gate.PageHostIsRouted | internal/server/server.go:294-307 | the page's host decodes to its target, and passes the gate if and only if its prefix does |
| Text.ReplaceInJoin | internal/content/content.go:198-200 | replacing the first occurrence of a one-line part of joined lines replaces that part |
| Markdown.InlineCalm | internal/content/markdown.go:92-100 | whatever a line holds, its inline rendering opens element tags only |
| Inlines.CodesWritten | internal/content/markdown.go:77-93 | what becomes of backquotes: a pair around something makes code, any other stays |
| Inlines.BoldsWritten | internal/content/markdown.go:78-94 | what becomes of double stars: two around text without a star make it bold, any other stays |
| Inlines.LinksWritten | internal/content/markdown.go:88-100 | what becomes of brackets: a text, an address and any attribute lists make a link with the inert attributes, any other stays |
| Inlines.AttributesAre | internal/content/markdown.go:104-114 | a run of lists adds the attributes named `id`, `class` or `data-…`, and nothing else |
| Entities.EscapeShown | internal/content/content.go:457-460 | both escapings read back as the text and leave no angle bracket or double quote |
| Markdown.RenderMarkdown | internal/content/markdown.go:24-72 | the line loop with its inner loops emits the chunks of the specification |
| Rendering.DocumentsRender | internal/content/markdown.go:24-80 | every text is a document of terminal fences, other fences, headings, lists, empty, raw and plain lines; whichever way it is taken apart, its page is the HTML of its parts, given character by character |
| Markdown.MarkedSurvive | internal/content/markdown.go:61-64 | placeholder lines come out as chunks of their own, all and in order, and nothing else comes out marked, if and only if no fence holds one |
| Blocks.CutSpells | internal/content/content.go:165-178 | cutting out blocks loses no text: put back, they give the source |
| BlockText.BlocksAre | internal/content/content.go:133-134 | the first block of a text is from its first opening tag, with any blanks around the word, to the nearest closing one, and the further ones are those of the text after it |
| BlockText.NoBlocks | internal/content/content.go:133-134 | a text without an opening or without a closing tag holds none |
| Weaving.LayoutSpells | internal/content/content.go:163-192 | after both passes one layout spells the source from the blocks' texts and the Markdown from placeholders, each block in exactly one hole, if no quiz is nested in an exercise |
| Placeholders.TokenApart | internal/content/content.go:250 | no placeholder occurs in another |
| Placeholders.BlocksInPlace | internal/content/content.go:193-200 | for any text with numbered holes: placeholders put in, rendered, and the blocks substituted, each block's HTML is on the page exactly once, in the order of the holes, if no fence holds a placeholder |
| LostBlocks.ComesOutIff | internal/content/content.go:163-200 | a block's placeholder comes out of the renderer if and only if it is neither the text of a fence nor inside an exercise |
| Lesson.RenderQuiz | internal/content/content.go:256-295 | question, choices, flags and HTML of a quiz, or the refusal of an incomplete one |
| QuizText.ChoicesAreLines | internal/content/content.go:135 | a line is a right choice with some text if and only if it is blanks, a dash, an x of either case in brackets and that text; a wrong one likewise with a space |
| QuizText.WrittenChoices | internal/content/content.go:135 | `- [x] t` and `- [X] t` are right choices and `- [ ] t` is a wrong one |
| QuizText.QuizAccepts | internal/content/content.go:264-284 | the flags registered for a quiz accept a submission if and only if it is the salted hash of the text of a line marked right |
| QuizText.QuizRefused | internal/content/content.go:264-277 | a quiz is refused if and only if no line is a question or none is a choice |
| QuizText.QuizWritten | internal/content/content.go:256-295 | a quiz of any question and choice lines: its element, character by character, and its challenge |
| PageText.ExerciseWritten | internal/content/content.go:302-333 | an exercise likewise, or its refusal |
| Trimming.TrimDrops | internal/content/content.go:264 | trimming drops exactly the space at both ends |
| Lesson.Extract | internal/content/content.go:165-192 | one pass replaces each block by its numbered placeholder and compiles it, or reports the first failure |
| Lesson.CheckTermRefs | internal/content/content.go:81-94 | the page is refused if and only if it refers to a terminal beyond the lesson's |
| Terminals.TermsKnownIff | internal/content/content.go:81-94 | a page passes if and only if every `data-term="…"` on it, bare, with `term` or with `.term` before the number, has a number within the lesson's terminals |
| Lesson.Lesson.Render | internal/content/content.go:142-245 | the imperative build equals the composed specification, error cases included |
| Lesson.Lesson.Record | internal/content/content.go:225-235 | every challenge with the hash gets the target, no other changes |
| Agreement.QuizGrades | internal/content/content.go:278-284 | the flags registered for a quiz accept exactly the salted hashes of the choices marked correct |
| Agreement.PageAndStoreAgree | internal/content/content.go:163-200 | each registered challenge's HTML carries the hash registered for it, and is on the page once, in source order, if and only if no quiz is in an exercise and no tag in a fence |
| Agreement.BlockLost | internal/content/content.go:163-200 | a block in a fence, or a quiz in an exercise, is absent: the page does not depend on its HTML |
| Openings.ShipsWholeIff | internal/content/content.go:160-200 | each opening tag of the source is where a registered block begins, and each registered block is on the page once in the place of its source, if and only if each opening tag is closed before any other opens and no block is in a fence |
| LostLessons.FencedLesson | internal/content/content.go:160-162 | a lesson with a quiz in a fence compiles, registers the quiz, and its page is the fence alone |
| SilentLessons.NestedLesson | internal/content/content.go:160-162 | a lesson with a quiz in an exercise compiles with at least one terminal, registers both, and its page is the exercise alone |
| SilentLessons.SwallowedLesson | internal/content/content.go:160-178 | a lesson with an exercise in a quiz compiles and registers the quiz alone, with the exercise in its question |
| SilentLessons.UnclosedLesson | internal/content/content.go:160-192 | a lesson whose exercise is never closed compiles, registers nothing, and shows the tag as text |
| DemoLinks.PairDemoLinks | internal/content/content.go:378-412 | the loop reroutes the i-th button by the i-th authored link and returns those routings |
| DemoLinks.Pairing | internal/content/content.go:378-412 | on a page showing each button once, pairing changes each button's routing to that of its link, or the defaults, and nothing else |
| DemoLinks.AttributesRead | internal/content/content.go:415-421 | a tag spelled from attributes reads back as them |
| AnchorText.ReadableIff | internal/content/content.go:364 | which attributes can be read back: names of letters and dashes that start with a letter, values without a double quote |
| DemoLinks.ButtonReads | internal/content/content.go:351-360 | a button's tag reads back as the hash and routing it was made for |
| PageText.ButtonIs | internal/content/content.go:351-360 | a button, character by character |
| PageText.LinkRoutes | internal/content/content.go:396-408 | an author's link with a full routing sends the button there, but only to a path on the same host |
| PageText.BareLinkRoutes | internal/content/content.go:396-408 | one with no more than an address leaves port 80 and the first terminal |
| PageText.RoutingsAre | internal/content/content.go:378-412 | the i-th exercise goes by the i-th link, and by the defaults where there is none |
| AnchorText.AnchorsAre | internal/content/content.go:363-387 | the anchor tags of a page, from its start to its end: `<a`, no further name character, and all up to the closing bracket |
| PageText.AuthoredIff | internal/content/content.go:389-395 | a tag is the author's if and only if it carries the mark and is no button |
| Marks.ShownReads | internal/content/content.go:236-239 | the tag of a button on the page, marked or not, reads back as its hash, its routing and the flag |
| Marks.MarkOne | internal/content/content.go:236-239 | marking hits the exercise's own button and nothing else |
| Finishing.LessonPage | internal/content/content.go:193-201 | the paired page: every block in its place, every exercise's button leading where its link says, all else as rendered |
| Finishing.LessonCompiles | internal/content/content.go:142-245 | a lesson is refused exactly if it refers to an unknown terminal or a port to verify is no number; otherwise its page is that one with the buttons marked if the server verifies, and the target recorded with each challenge is the one its button's tag on the page says |
| Phash.BoxesTile | internal/scoring/phash.go:59-89 | from 9 by 8 up, every pixel lies in exactly one of the 72 boxes |
| Phash.BoxesInside | internal/scoring/phash.go:59-97 | at every size each box is non-empty and inside the picture |
| Phash.ResizeGray | internal/scoring/phash.go:59-89 | the loops compute each box's average, a byte |
| Phash.DHash | internal/scoring/phash.go:35-49 | the loops compute the specified hash |
| Phash.HashBits | internal/scoring/phash.go:35-49 | bit 8y+x is set exactly if box (y,x) is darker than (y,x+1); nothing above bit 63 |
| Phash.NineByEight | internal/scoring/phash.go:35-49 | on a 9 by 8 picture bit 8y+x is set exactly if point (x,y) is darker than the one to its right |
| Phash.AverageIsFloor | internal/scoring/phash.go:59-89 | an average is its box's sum divided by its points, rounded down |
| Phash.HashIgnoresBrightness | internal/scoring/phash.go:35-89 | adding a constant without clipping never changes the hash, at any size |
| Phash.HashIgnoresScale | internal/scoring/phash.go:35-89 | enlarging pixels never changes it for widths divisible by 9 and heights by 8 |
| Phash.FlagRoundTrip | internal/scoring/phash.go:99-143 | the printed flag is recognised and parses back to its hash and threshold |
| Phash.GradesByDistance | internal/scoring/store.go:128-140 | grading on a printed flag of any 64-bit hash accepts exactly the captures whose hash differs from it in at most as many bits as the threshold says |
| Phash.HandFlagGrades | internal/scoring/phash.go:126-143 | a flag of any hash text, with any text or none after a colon, grades by that hexadecimal number below 2^64 and that threshold, or the default if it is no number, or not at all |
| Phash.OtherFlagsExact | internal/scoring/store.go:312-314 | a flag that is not `phash$` and something more accepts exactly itself |
| Bits.HammingIsMetric | internal/scoring/phash.go:99 | the distance is a metric on 64-bit hashes |
| Bits.HammingCounts | internal/scoring/phash.go:99 | the distance is the number of the 64 bits in which two hashes differ |
| DockerStream.FrameWriter.Write | internal/dockershim/exec.go:97-104 | one frame is sent, or the part of it the connection takes, and the count is of payload bytes |
| DockerStream.FrameBytes | internal/dockershim/exec.go:97-104 | a frame is its stream, three zeros, the length with the highest byte first, and the payload |
| DockerStream.Demultiplexes | internal/dockershim/exec.go:92-104 | any sequence of frames on two streams, chunked in any way, demultiplexes to each stream's payload in order |
| DockerStream.CutOff | internal/dockershim/exec.go:92-104 | of any prefix of the frames' bytes, chunked in any way, each stream delivers the payloads of the frames that are whole in it and nothing of the torn one |
| DockerStream.FailedIsCut | internal/dockershim/exec.go:97-104 | what a failing write leaves on the connection is such a prefix, ending in its own frame |
| DockerStream.ChunksDoNotMatter | internal/dockershim/exec.go:92-104 | a reader's state depends on the bytes only, not on the chunks |
| DockerStream.FrameFitsIffShort | internal/dockershim/exec.go:97-104 | a frame carries its payload exactly if that is under 2^32 bytes |
| TerminalStream.WsStream.Read | internal/terminal/wsstream.go:42-74 | the loop fills the caller's buffer as the specification does and keeps the rest |
| TerminalStream.WsStream.Next | internal/terminal/wsstream.go:87-94 | hands out the oldest queued size, or the end once the socket is gone |
| Resizes.ReadSkips | internal/terminal/wsstream.go:54-63 | resize messages are passed over; of their sizes, columns by rows, the first wait until there are four and the rest are dropped |
| Resizes.OthersIgnored | internal/terminal/wsstream.go:54-72 | other text, and sizes with a zero, do nothing |
| Resizes.BytesFill | internal/terminal/wsstream.go:43-69 | bytes fill the buffer as far as they go and the rest comes first in the next read |
| TerminalStream.NothingTypedIsLost | internal/terminal/wsstream.go:42-94 | delivered bytes plus leftover are the binary payloads received; sizes are an in-order part of the valid ones, at most four queued |

## Left out

- Durability.Durable: an acknowledgement counts when the record began a line; on a damaged line it does not hold, as
  `Losses.SmearedIsLost` shows.
- Durability.NoDuplicates: for runs in which no boot meets an over-long line; `UseJournal` carries on after such a
  line with part of the solves, and `Losses.LongLineHides` gives the run that writes one twice. Users and challenges
  are non-empty UTF-8: memory keeps others as submitted, the log does not. `Durability.MemoryMatchesLog`,
  `Durability.AcknowledgedIffClean` and `Survival.SurvivesIff` take both conditions, `Durability.AppendedNew` the
  first; `Losses.LongLineKeeps` is the input that defeats `Survival.SurvivesIff` without it.
- Serving.Serve: one request at a time; how concurrent requests interleave is `Durability`'s. Likewise
  `Sessions.Keepalive` and `Sessions.Collect`, whose steps interleave in `SessionProtocol`.
- SessionProtocol.BoundedLifetime: a label written only after its own deadline counts from its writing.
- Agreement.PageAndStoreAgree: the lesson's text has no placeholder comment of its own.
- Openings.ShipsWholeIff: the lesson's text has no placeholder comment of its own, and its blocks compile.
- DockerStream.Demultiplexes: each frame is taken to be written at once; two writers whose header and payload
  interleave are not modelled. `DockerStream.CutOff` likewise.
- Finishing.LessonCompiles: no text is a placeholder, no quiz is in an exercise and no tag in a fence; the exercises
  have distinct hashes; and no text of the lesson (a raw HTML line, say) opens a submit button with one of them or, if
  the server verifies, has the attribute that carries it. `Finishing.LessonPage` likewise.
- DemoLinks.Pairing: the hashes are distinct and each button is shown once, as the pairing of a hash with its button
  needs.
- SessionProtocol.KeepaliveSafety: the delay between the collector's listing and its clock reading is a parameter, and
  nothing is claimed of passes that list after the next keepalive is overdue.
- HostNames.HostRoundTrip: the router host is a name of letters, digits, dots, dashes and underscores with an optional
  port of at most five digits, as the pattern allows.
- Lesson.Lesson.Render: front matter is read already; its fields are the `Setting`. Challenge names are left out, the
  digests are any functions, and the surrounding page layout is not applied.
- Expiry.LabelsRead: clock readings lie between one second and 2^63 nanoseconds after 1970.
- Text is a sequence of code points in the lesson compiler, of bytes in scoring and routing; invalid UTF-8 in lessons
  is not modelled.
- A failing fsync leaves the file's bytes as they were; storage that loses or reorders synced bytes is not modelled.
- LineText.LineMeans: the JSON decoder's nesting limit of 10000 is not modelled, nor in `JsonScan.CompleteIff`: no record
  comes near it, and a glued line only fails sooner.
- Field names match case-insensitively as the decoder does; of the non-ASCII letters that fold to ASCII, U+017F is
  modelled, the only one that folds to a letter of a field name.
- Pod names never repeat, and there is one clock.
- Kubernetes beyond atomic get, create, list, patch and delete: scheduling, attach, logs, namespaces of whole
  sessions.
- `Results`, HTTP handlers, cookies, OAuth, file serving, the challenge file loader: plumbing with only easy members.
- Image decoding, colour conversion and headless rendering: a picture is a matrix of grey levels.
- The page's script apart from the host expression; terminal control messages arrive already parsed.
- YAML, templates, charts and scripts.
