# Memgarden: verified model

A Dafny model of the parts of memgarden whose correctness is hard to see from
one function: the editor that splices hook entries into a hand-formatted
settings file and takes them out again byte for byte; the name matching that
decides which known entity a mention adopts; the two-cursor protocol that
retains a transcript; the memory store with its cascades and recycled rowids;
and four small exact algorithms (a bank's anatomy, latency quantiles, raced
migrations, the response reader).

`dafny verify dfyconfig.toml` checks everything.

## Layout

| files | what |
|---|---|
| `Json`, `Parser`, `Doc` | JSON as trees that keep their whitespace and raw keys, a reference reader, and what a decoding reader sees of such a tree |
| `Scanner`, `Members`, `Settings` | the byte scanners, install and uninstall, as loops proved against functions on any text |
| `Edits`, `HookEntry`, `Broken`, `InstallLaws`, `Wiring` | install as an edit of trees: what is inserted, where, when that breaks the file, what it wires |
| `Markers`, `Chunks`, `Removal`, `Cut`, `PlantedTree`, `RoundTrip` | uninstall finds exactly the inserted bytes, so the original comes back |
| `Written`, `Recognised` | what install leaves for readers, field by field and line by line; what counts as the editor's own |
| `TwinKeys` | where install does not do what it says, and exactly when |
| `Paths`, `Commas`, `Spans`, `Counting`, `Reformatted`, `LostHooks` | uninstall on files edited since: what is cut anywhere in a tree, when what is left can be read, and what goes with it |
| `Matching`, `MatchLaws`, `Obershelp` | Ratcliff/Obershelp matching with its pruned index and work stack, against the match said of positions alone |
| `Resolution`, `ScoreLaws`, `Entities`, `EntityLaws` | entity resolution, what its score rewards, and how a batch of entities is written |
| `UnionFind`, `Reach`, `Anatomy`, `Census`, `CensusLaws` | path halving, components, degrees, and the report by counting rows |
| `Sessions`, `SessionColumns` | the two cursors over whole runs, the range guard, each column of a write |
| `Transcript`, `LineKinds` | the bounded reader, and what it makes of each kind of line |
| `Tables`, `Consolidation`, `PlanLaws`, `PlanResults`, `Supersession`, `StoreSteps`, `StatementLaws`, `Store` | the tables as maps, statements as functions on them, what each leaves row by row, the store as a class |
| `MentalModels`, `ModelLaws` | a second pair of tables, written in step |
| `RebuildRace` | the index rebuild as steps between the writes of others |
| `Metrics`, `QuantileLaws` | histograms, and their figures by counting samples |
| `Migrate` | raced migrations |
| `Http`, `Head`, `Exchange` | the response reader, the head parser, and a whole answer through both |
| `Wrappers`, `Common` | optional values, results, small shared notions |

Code that changes state in place is a class or a method over arrays and loops,
each proved against a function on values; what is promised is proved about that
function. Text is one character per byte. Scores and quantiles are reals.

## What the model found

* **Escaped twins.** The scanner finds a member by its raw key while a decoding
  reader takes the last one of any spelling. On `{"hooks":{},"\u0068ooks":{}}`
  `install` succeeds and wires nothing; on
  `{"hooks":{"Stop":[],"\u0053top":[]}}` it succeeds and leaves `Stop` unwired.
  The comments at settings.rs:124-145 mean to exclude this failure, since they
  take an escaped spelling to be one the scan never finds; and a second install
  is then not the idle one of settings.rs:245-249 (`Wiring.InstallWires`).
  `TwinKeys` has both files and the exact condition for every file. Where the
  raw twin is no object at all, install blames a file that parses for not
  parsing (`TwinKeys.ScalarTwinIsBlamed`).
* **What a reformatted file does to uninstall.** An entry on a line of its own
  is taken out exactly when no comma precedes it or one follows, and a comma that
  follows touches it (`Reformatted.CutExactly`). So an entry that another tool's
  has pushed to the end, or one with a space before its comma, is refused as a
  bug in memgarden, though the file is valid.
* **Another tool's hook can go with ours.** The guard at settings.rs:628-643
  counts one spelling of the key. A chunk with a hook that writes
  `"command" :`, or has no command, passes it and is deleted whole
  (`LostHooks`), which settings.rs:605-609 means to exclude;
  `Counting.CutHolds` says exactly when.
* **Indentation in CRLF files.** An entry takes the indentation of the first
  child only behind a bare line feed, so in a file with carriage returns it
  never does, against the comment at settings.rs:540-546
  (`Written.CarriageReturnHides`).
* **Rowid reuse.** `set_embedding` for a node deleted in the meantime leaves an
  index row behind, and the next observation to get that rowid is refused
  (`PlanLaws.OrphansExactly`). A source deleted before its observation is
  created can come back as the observation's own source
  (`Consolidation.CreatedSources`).
* **Collection between queueing and confirming** inverts the cursors and makes
  the in-flight number read zero (`Sessions.GcInvertsCursors`), which the comment
  at sessions.rs:103-107 holds impossible; the exact condition is
  `Sessions.CleanKeepsOrder`. A write with both confirm channels is not
  idempotent in exactly the cases of `Sessions.RepeatExactly`; no caller
  makes one.
* **The index rebuild beside other writers** (`RebuildRace`). A vector set
  between its snapshot and its delete is lost from the index, one set after the
  delete makes it fail, and a node deleted in between comes back as an orphan
  row; the conditions are exact.
* **An older build beside a newer one** can pass its look at the version before
  the newer one migrates, and then finishes without an error on a schema it does
  not know (`Migrate.OlderFinishesLate`).
* **The head limit** is checked between reads, so a head that ends just past it
  is accepted or refused depending on how the socket delivers it
  (`Http.CutsMatterExactlyInTheGap`).
* **The length prefilter's threshold clause** never decides, over reals: the
  floor alone does (`Resolution.PrefilterIsTheFloor`).
* **A merge of an observation into itself** deletes it inside the transaction
  and fails at the recount, so nothing changes (`Store.Db.MergeObservation`).

## Model

| member | source | states |
|---|---|---|
| Parser.ParseExactly | crates/memgarden-cli/src/settings.rs:386-390 | The texts the reference reader takes are exactly the renderings of valid concrete trees, each from one tree; this stands for the validity check, and for every document the editor touches. |
| Parser.DocumentRead | crates/memgarden-cli/src/settings.rs:386-390 | Every valid document, rendered with any whitespace, is read back as itself. |
| Parser.DocumentSound | crates/memgarden-cli/src/settings.rs:386-390 | Whatever is read is a valid document whose rendering is the text, byte for byte. |
| Doc.EscapeRoundTrip | crates/memgarden-cli/src/settings.rs:210-210 | A command path quoted for JSON is a valid string body and decodes to the path. |
| Scanner.SkipWsScan | crates/memgarden-cli/src/settings.rs:730-735 | The loop stops at the first byte from the start that is no ASCII whitespace, or at the end of the text. |
| Scanner.SkipStringScan | crates/memgarden-cli/src/settings.rs:753-766 | On every text, valid or not, the loop gives the end of SkipStringAgrees: past the first unescaped quote, or none when the text runs out, also right after a backslash. |
| Scanner.SkipContainerScan | crates/memgarden-cli/src/settings.rs:788-808 | On every text the depth counter gives the end that SkipValueAgrees is about: where the brackets outside strings balance, or none. |
| Scanner.SkipValueScan | crates/memgarden-cli/src/settings.rs:770-786 | On every text the dispatch on the first byte gives the end that SkipValueAgrees is about. |
| Scanner.SkipStringAgrees | crates/memgarden-cli/src/settings.rs:753-766 | On the text of any valid string, wherever it stands, the scan stops exactly after its closing quote. |
| Scanner.SkipValueAgrees | crates/memgarden-cli/src/settings.rs:770-808 | On the text of any valid JSON value, wherever it stands, the scan stops exactly at its end; a scalar needs a delimiter after it. |
| Members.FindMemberScan | crates/memgarden-cli/src/settings.rs:694-728 | On every text, valid or not, the loop gives the outcome that FindMemberAgrees is about, and it terminates. |
| Members.FindMemberAgrees | crates/memgarden-cli/src/settings.rs:694-728 | On the text of any valid value: the offset of the one member with that raw key at that level, duplicate when there are two or more, not found when there is none or the value is no object. |
| Members.MemberStands | crates/memgarden-cli/src/settings.rs:694-728 | At the offset found stands the text of that member's value, whole and inside its parent. |
| Edits.GraftText | crates/memgarden-cli/src/settings.rs:485-538 | Splicing a member after the opening bracket, with a comma exactly if the container was not empty, renders the tree with that member in front. |
| Edits.SetMemberText | crates/memgarden-cli/src/settings.rs:485-528 | A splice inside the one member with a key is the tree with that member replaced, at any depth of wrapping whitespace. |
| HookEntry.GroupText | crates/memgarden-cli/src/settings.rs:209-222 | The hand-written entry line is the rendering of a tree; what readers find in it is Written.InstallWrites. |
| HookEntry.GroupValid | crates/memgarden-cli/src/settings.rs:209-222 | That tree is valid JSON for every path of the binary. |
| Settings.InstallHooks | crates/memgarden-cli/src/settings.rs:251-290 | The loop that parses again after every splice gives the outcome of install; whom it wires is InstallWires, what it writes for them Written.InstallWrites. |
| Settings.FindMarkerScan | crates/memgarden-cli/src/settings.rs:364-384 | The key-by-key search gives the first place where the key, a colon amid whitespace and the value prefix follow one another, or none. |
| Settings.FindMarkerUnique | crates/memgarden-cli/src/settings.rs:364-384 | A marker with none before it is the one that is found. |
| Settings.UninstallHooks | crates/memgarden-cli/src/settings.rs:299-349 | The deletion loop terminates on every text, by text length and then bytes left to search, with the outcome that UninstallRestores is about. |
| Settings.InsertionInBounds | crates/memgarden-cli/src/settings.rs:485-528 | On any document, valid keys or not, an insertion point lies inside the text. |
| InstallLaws.InsertionAgrees | crates/memgarden-cli/src/settings.rs:485-528 | For every object document: where and what to insert, from bytes, is what the tree says: which of the three shapes, into which raw member, with the comma its next byte calls for, and the same four kinds of refusal. |
| InstallLaws.PutText | crates/memgarden-cli/src/settings.rs:485-538 | The bytes of an insertion are the tree with the entry put in. |
| InstallLaws.InstallEntryAgrees | crates/memgarden-cli/src/settings.rs:260-281 | For every object document one round of install is refused exactly as the tree says; otherwise it gives the text of that document with the entry, parsed as it, or a text that does not parse exactly when the raw member found is no container of its kind. |
| InstallLaws.MisfitBreaks | crates/memgarden-cli/src/settings.rs:485-528 | A chunk spliced into a string, a scalar or the wrong kind of container never leaves a text that parses, whatever stands around it. |
| Wiring.PutWires | crates/memgarden-cli/src/settings.rs:396-414 | An entry put in is wired if it was or if the members that count for its event are raw; for every other event nothing that install or a reader asks has another answer. |
| Wiring.InstallFromLaw | crates/memgarden-cli/src/settings.rs:251-290 | The remaining rounds, on every object document: the first refusal, or a broken file, or every pending event written and exactly the reached ones wired. |
| Wiring.NoFailure | crates/memgarden-cli/src/settings.rs:251-290 | No failure exactly when each pending event has a place with a container of its kind. |
| Wiring.InstallWires | crates/memgarden-cli/src/settings.rs:251-290 | For every object document: install fails exactly when a pending event is refused or its chunk breaks the file, with that error; otherwise it adds a line per unwired event, an event is wired after it exactly if it was or its members that count are raw, and a second install changes nothing exactly when all four are wired. |
| Wiring.InstallAgain | crates/memgarden-cli/src/settings.rs:245-249 | Install leaves a file alone exactly when all four events are wired in it. |
| Chunks.NodeCommand | crates/memgarden-cli/src/settings.rs:590-643 | The key that opens a written entry occurs in it once, at its known place. |
| Removal.ChunkEndsThere | crates/memgarden-cli/src/settings.rs:647-662 | From the start of any written chunk, in any of the shapes, the end scan stops exactly after it and its comma. |
| Cut.MarkerBefore | crates/memgarden-cli/src/settings.rs:364-384 | No marker straddles a bracket or a comma: one that starts before such a byte lies before it. |
| Cut.SpanIsInsertion | crates/memgarden-cli/src/settings.rs:590-643 | The first marker after an insertion is its own, and the span found around it is exactly the inserted bytes: line ending, indent, chunk and comma. |
| Cut.CutInsertion | crates/memgarden-cli/src/settings.rs:299-349 | Uninstall after one insertion continues as on the text without it, and reports exactly the inserted chunk and comma. |
| RoundTrip.RestoreHooks | crates/memgarden-cli/src/settings.rs:299-349 | Deletion undoes any run of insertions into a document with a hooks object, however nested and in whatever order the entries went in. |
| RoundTrip.RestoreText | crates/memgarden-cli/src/settings.rs:299-349 | For every document without a marker, however its keys are spelled, the deletion loop gives back the bytes install was given, one line removed for each added. |
| RoundTrip.UninstallRestores | crates/memgarden-cli/src/settings.rs:251-349 | For every document without a marker on which install succeeds: uninstall returns the original bytes exactly when nothing was wired before, with a reported line for each added that is the bytes of that entry, and otherwise reports how many entries are left over. |
| Reformatted.UninstallSettles | crates/memgarden-cli/src/settings.rs:299-349 | On every file, edited or not: after a successful uninstall the text parses, no event is wired, nothing that would be cut is left, and uninstalling again changes nothing. What it keeps is said by CutExactly, PeelAll and CutHolds. |
| Spans.OursCuttable | crates/memgarden-cli/src/settings.rs:590-643 | What install writes, in any of the three shapes, is an element that uninstall cuts. |
| Spans.SpanOfElement | crates/memgarden-cli/src/settings.rs:590-643 | Any element that starts like one of ours, with a marker on its first line, on a line of its own anywhere in a text: the span is its line ending, indent, bytes and touching comma, or none when it does not hold exactly one counted command. |
| Reformatted.CutExactly | crates/memgarden-cli/src/settings.rs:299-349 | Any such element with one command, as any element of any container of a valid file, with all the markers in it: uninstall takes out exactly that element if and only if no comma precedes it or one follows, and a comma that follows touches it, and then succeeds unless something unmarked is wired; otherwise it refuses with WouldCorrupt. |
| Reformatted.LastBehindComma | crates/memgarden-cli/src/settings.rs:299-349 | So an entry of install that has become the last element behind a comma is refused, at any depth. |
| Reformatted.CommaApart | crates/memgarden-cli/src/settings.rs:299-349 | So is one whose comma stands apart from it, behind a space or on the next line. |
| Reformatted.PeelAll | crates/memgarden-cli/src/settings.rs:299-349 | Any number of chunks that can be taken out one after the other are, each reported with its exact bytes, and every other element stays. |
| Counting.CommandsAreKeys | crates/memgarden-cli/src/settings.rs:628-643 | The number the guard compares with one is the number of keys of the chunk's tree that end in the quoted name and have their colon right behind it, whatever its strings hold. |
| Counting.CutHolds | crates/memgarden-cli/src/settings.rs:628-643 | A chunk that is cut holds at most one hook with such a key, and takes all the others it holds with it; so one that holds ours holds no other exactly when it holds no hook without such a key. |
| LostHooks.GroupIsLost | crates/memgarden-cli/src/settings.rs:590-643 | A file with any one-line group without such a key or a marker in front of our entry in an event: uninstall succeeds and leaves an empty hooks object. |
| LostHooks.OthersAreLost | crates/memgarden-cli/src/settings.rs:590-643 | Two such files, a command with a space before its colon and a hook without a command: another tool's hook is deleted with ours. |
| Commas.GapBreaks | crates/memgarden-cli/src/settings.rs:386-390 | A container whose text goes on with a comma where its element should start, or closes behind a comma, is not read. |
| Commas.TreeBreaks | crates/memgarden-cli/src/settings.rs:386-390 | Where a container at any depth is not read, the whole file is not. |
| TwinKeys.TwinDefeatsInstall | crates/memgarden-cli/src/settings.rs:485-528 | With one raw hooks object and no event for readers, install always succeeds with four lines: all four events are wired when the last member that spells hooks is raw, and none when it is escaped. |
| TwinKeys.WiresExactlyWhenRaw | crates/memgarden-cli/src/settings.rs:251-290 | On every file: a successful install leaves all four events wired exactly when, for each event that was not, the last member that spells hooks and the last one in the raw hooks object that spells the event are raw. |
| TwinKeys.PlainFileIsWired | crates/memgarden-cli/src/settings.rs:251-290 | In a file without escapes in these keys, success always means all four. |
| TwinKeys.ScalarTwinIsBlamed | crates/memgarden-cli/src/settings.rs:251-290 | Where the raw hooks is no object and readers see another one, install reports a parse error for a file that parses. |
| TwinKeys.TwinFileFails | crates/memgarden-cli/src/settings.rs:251-290 | A concrete file with a second spelling of hooks: success, and not all wired. |
| TwinKeys.EventTwinFileFails | crates/memgarden-cli/src/settings.rs:251-290 | A concrete file with a second spelling of Stop: success with four lines, and three events wired. |
| Written.InstallWrites | crates/memgarden-cli/src/settings.rs:209-289 | On every file on which install succeeds: each event it newly wires has a new group in front of those that were there, whose one hook is of type command, runs the given path with the two arguments for its event, and has the timeout, async flag and status of that event, all four spelled out; no other event and no other member of the document reads differently. |
| Written.InstallAddsLines | crates/memgarden-cli/src/settings.rs:251-290 | Each reported line goes in whole behind an opening bracket, after the line ending of the file and indented for its place; a file whose line feeds all follow carriage returns stays so, and one without such endings gets none. |
| Written.InnerIndentFor | crates/memgarden-cli/src/settings.rs:547-573 | An entry is indented like the first child where a line feed follows the bracket and that child is indented, and two deeper than the line of the bracket otherwise. |
| Written.CarriageReturnHides | crates/memgarden-cli/src/settings.rs:547-573 | With a carriage return behind the bracket there is no such child, so the second rule holds whatever the file looks like. |
| Recognised.WiredExactly | crates/memgarden-cli/src/settings.rs:396-414 | An event is wired exactly when some group of it has a hook whose status message starts with our prefix and whose second argument is the subcommand. |
| Recognised.UninstallTakesOurs | crates/memgarden-cli/src/settings.rs:590-643 | On any file every line that uninstall takes out starts as a group or with one of the five keys install writes, and holds exactly one counted command; a member of any other name stays. |
| Recognised.SpanParts | crates/memgarden-cli/src/settings.rs:590-643 | What is cut for a marker is one line break, blanks, and such a line with the marker in it. |
| Matching.BuildIndex | crates/memgardend/src/entities.rs:109-119 | The index holds the positions of every element kept by the popularity rule, ascending. |
| Matching.LongestMatch | crates/memgardend/src/entities.rs:132-180 | The row maps and the two extension loops find the block that LongestIsFirst is about, pruned index or not. |
| Matching.MatchingSize | crates/memgardend/src/entities.rs:83-101 | The work stack terminates, whatever order it is worked in, with the total that Obershelp.TotalIsObershelp and TotalIsExhaustive say without it. |
| MatchLaws.RowsAreFirst | crates/memgardend/src/entities.rs:132-180 | The dynamic program finds the longest run of indexed elements in the window, the first by a, then by b. |
| MatchLaws.LongestIsFirst | crates/memgardend/src/entities.rs:109-180 | Below 200 elements: the block is a common block of maximal size in the window with the smallest i and then j, and the extension loops do nothing. |
| MatchLaws.BlocksAreAChain | crates/memgardend/src/entities.rs:83-101 | The total is the sum of disjoint, order-preserving common blocks, whatever the index was pruned of. |
| MatchLaws.ChainFits | crates/memgardend/src/entities.rs:83-101 | Such blocks fit in the shorter sequence, and fill both only if the two are equal. |
| MatchLaws.EqualMatchesInFull | crates/memgardend/src/entities.rs:83-180 | A sequence matches itself in full, even when pruning emptied the index. |
| MatchLaws.TotalBounds | crates/memgardend/src/entities.rs:83-101 | The total never exceeds either length, and equals both exactly when the sequences are equal. |
| Obershelp.TotalIsObershelp | crates/memgardend/src/entities.rs:83-180 | Below 200 elements the total is the sum of the Ratcliff/Obershelp match: the longest common block, the first by a and then by b, and the same again left and right of it, said of sequences and positions alone. |
| Obershelp.MatchIsUnique | crates/memgardend/src/entities.rs:83-101 | There is one such match. |
| Obershelp.TotalIsExhaustive | crates/memgardend/src/entities.rs:83-180 | However long: the total is the sum of a chain of common blocks, and before, between and after them no element that is matched on occurs on both sides; below 200 elements the chain holds the longest block. |
| Obershelp.KeptExactly | crates/memgardend/src/entities.rs:109-119 | Which elements are matched on: all below 200, and else those that fill no more than one in a hundred places, one more allowed. |
| Resolution.RatioBounds | crates/memgardend/src/entities.rs:71-79 | The ratio is in [0, 1], at most the length ceiling, and 1 exactly for equal names. |
| Resolution.RunsOf | crates/memgardend/src/entities.rs:199-225 | The scan with an open run finds the maximal numeric runs. |
| Resolution.RunsIgnoreWidth | crates/memgardend/src/entities.rs:199-225 | A name folded to ASCII digits has the same runs. |
| Resolution.ScoreBound | crates/memgardend/src/entities.rs:236-252 | Circumstance adds between nothing and one half to half the ratio. |
| Resolution.PrefilterIsSafe | crates/memgardend/src/entities.rs:258-275 | The prefilter turns away only names whose ratio is below the floor. |
| Resolution.PrefilterIsTheFloor | crates/memgardend/src/entities.rs:258-275 | Over reals it lets through exactly the pairs of which neither is more than three times as long as the other: its threshold clause never decides. |
| Resolution.ResolveMention | crates/memgardend/src/entities.rs:317-395 | The loop, with prefilter and early exit, gives the answer that mentions neither: an exact name, else the first best eligible candidate above the threshold, else the mention; what scores high is ScoreLaws.ScoreIs and the laws after it. |
| Resolution.AnswerIsUnique | crates/memgardend/src/entities.rs:317-395 | There is one such answer, so dropping the prefilter changes none. |
| Resolution.AdoptedIsEarned | crates/memgardend/src/entities.rs:317-395 | An adopted name is the mention itself, or has equal digit runs, ratio at least 0.5 and score above 0.6; a known name is never given away. |
| ScoreLaws.ScoreIs | crates/memgardend/src/entities.rs:236-252 | Half the ratio, three tenths of the share of the nearby names the candidate has met, two tenths of what is left of seven days since it was seen. |
| ScoreLaws.MoreIsHigher | crates/memgardend/src/entities.rs:236-252 | All else equal, more shared names score strictly higher, and so does a better ratio. |
| ScoreLaws.NearerIsHigher | crates/memgardend/src/entities.rs:374-383 | All else equal, a nearer date within seven days scores strictly higher, and beyond seven days dates make no difference. |
| ScoreLaws.AdoptedNeedsCircumstance | crates/memgardend/src/entities.rs:317-395 | A candidate that is not the exact name is adopted only if it has met a nearby name or was seen within seven days. |
| ScoreLaws.CompanyAdopts | crates/memgardend/src/entities.rs:317-395 | An eligible candidate that has met all nearby names is above the threshold as soon as its ratio is above 0.6, and then some candidate is adopted. |
| ScoreLaws.CompanyDecides | crates/memgardend/src/entities.rs:317-395 | Of two eligible candidates alike in name and date the one with fewer shared names is never the best. |
| ScoreLaws.RatioIs | crates/memgardend/src/entities.rs:71-79 | The ratio times both lengths is twice the matched total; two empty names have ratio one. |
| ScoreLaws.RunsAreMaximal | crates/memgardend/src/entities.rs:199-225 | There is a run for every place where digits start, and they are what stands there up to the next other character. |
| ScoreLaws.WidthIsIgnored | crates/memgardend/src/entities.rs:199-225 | Names that differ only in the width of their digits have the same runs. |
| ScoreLaws.FoldDecides | crates/memgardend/src/entities.rs:208-217 | Two characters are read alike exactly if they are the same or the same digit in two widths. |
| ScoreLaws.FirstAppearance | crates/memgardend/src/entities.rs:290-297 | A mention that is kept stands before another exactly if it appeared first. |
| Resolution.NormalizeAll | crates/memgardend/src/entities.rs:290-297 | The mentions once each, none empty, exactly the canonical ones, in order of first appearance. |
| Resolution.ResolveFact | crates/memgardend/src/entities.rs:307-395 | One answer per distinct mention, in order. |
| UnionFind.Find | crates/memgarden-store/src/graph.rs:1045-1051 | find terminates, returns the root, and its path halving changes no node's root. |
| UnionFind.HalvingKeepsRoots | crates/memgarden-store/src/graph.rs:1046-1049 | One halving step keeps the forest and every root. |
| UnionFind.UnionMerges | crates/memgarden-store/src/graph.rs:1070-1073 | Hanging a root below another merges exactly their two trees. |
| Anatomy.RootsAreComponents | crates/memgarden-store/src/graph.rs:1057-1074 | Two nodes share a root exactly when a path of in-bank links joins them. |
| Anatomy.JoinEnds | crates/memgarden-store/src/graph.rs:1070-1073 | Joining the ends of a link keeps that for the links read so far. |
| Anatomy.ReadLinks | crates/memgarden-store/src/graph.rs:1057-1074 | The pass over the links ends with roots for components, degrees, link kinds and cross-type links counted against the tables. |
| Census.GroupNodes | crates/memgarden-store/src/graph.rs:1086-1091 | The nodes grouped by root, each group tallied by fact type. |
| Census.SizesSum | crates/memgarden-store/src/graph.rs:1086-1106 | The component sizes add up to the node count, before the list is cut. |
| Census.Handshake | crates/memgarden-store/src/graph.rs:1059-1066 | The degrees add up to twice the number of in-bank links. |
| Census.IsolatedCounted | crates/memgarden-store/src/graph.rs:1147-1149 | The leading zeros of the sorted degrees are all of them. |
| Census.ZeroIsUntouched | crates/memgarden-store/src/graph.rs:1059-1066 | A node has degree zero exactly when no in-bank link ends at it. |
| Census.BankAnatomy | crates/memgarden-store/src/graph.rs:1002-1145 | The whole report against paths and counts over the tables: one component per class of reachable nodes, the mean degree from the link count, the twelve kept. |
| Census.LargestKept | crates/memgarden-store/src/graph.rs:1104-1106 | No component that is cut is larger than one that is kept. |
| CensusLaws.DegreesReported | crates/memgarden-store/src/graph.rs:1108-1126 | The reported degrees, by counting nodes: minimum, maximum, median, ninth decile, mean and the number of isolated nodes. |
| CensusLaws.ShareIsOne | crates/memgarden-store/src/graph.rs:1108-1115 | At most one value stands at a given share of the nodes, so the percentiles are those. |
| CensusLaws.DegreeCounts | crates/memgarden-store/src/graph.rs:1057-1066 | A degree is the in-bank links that leave the node and those that arrive, a link to itself being both. |
| CensusLaws.LinksReported | crates/memgarden-store/src/graph.rs:1057-1083 | The reported links: how many, of each kind, and between nodes of different fact types. |
| CensusLaws.ComponentsReported | crates/memgarden-store/src/graph.rs:1086-1106 | The reported components: at most twelve, each with the number of its nodes of every fact type. |
| CensusLaws.LinksRead | crates/memgarden-store/src/graph.rs:1023-1042 | The links read are those whose source is in the bank, each as often as it stands in the table. |
| Entities.CountMentions | crates/memgarden-store/src/graph.rs:149-159 | The fold of a batch holds exactly the names it mentions, each with its number of mentions and the earliest and latest date of a fact that names it. |
| Entities.MentionsAdd | crates/memgarden-store/src/graph.rs:149-159 | Two batches count mentions like one after the other. |
| Entities.Store.UpsertAll | crates/memgarden-store/src/graph.rs:169-188 | Each name gets one row: its own with the count added and the dates widened, or a new one; every other row is as it was, and names stay unique per bank. |
| Entities.SortedIds | crates/memgarden-store/src/graph.rs:208-210 | The ids a fact names, ascending and without repeats. |
| Entities.BumpAll | crates/memgarden-store/src/graph.rs:211-217 | The nested loops bump every pair of one fact exactly once and no other. |
| Entities.Store.FoldPairs | crates/memgarden-store/src/graph.rs:206-218 | The fold over the batch holds a pair exactly if some fact names both, with the number of such facts and the date of the last. |
| Entities.SharedAdds | crates/memgarden-store/src/graph.rs:206-218 | A pair is counted once per fact that names both, however often each, and adds up over batches. |
| Entities.LastSharedIsLatest | crates/memgarden-store/src/graph.rs:206-218 | The folded date is that of the latest fact that names both. |
| EntityLaws.MergedColumns | crates/memgarden-store/src/graph.rs:169-188 | A known entity gets the mentions on top of its own and the earlier and later of the dates; a new one starts with those of the batch. |
| EntityLaws.PairsAfter | crates/memgarden-store/src/graph.rs:219-234 | A pair has then met as often as before and once more per fact of the batch that names both, last at the latest date of all. |
| EntityLaws.SharedOfOne | crates/memgarden-store/src/graph.rs:206-218 | One fact is shared by two entities exactly when it lists names of both, the smaller id first. |
| EntityLaws.MentionsOfOne | crates/memgarden-store/src/graph.rs:149-159 | One fact mentions a name as often as it lists it. |
| EntityLaws.AttachedExactly | crates/memgarden-store/src/graph.rs:189-200 | A node is attached to exactly the entities that some fact of it lists. |
| Entities.Store.WriteEntities | crates/memgarden-store/src/graph.rs:137-238 | The whole batch: rows merged, attachments added, pairs added to the table with the smaller id first, ids for exactly the names mentioned; or an error, exactly when a named fact's bank or node is missing, and no change. |
| Sessions.Store.Upsert | crates/memgarden-store/src/sessions.rs:199-313 | Insert or merge of a row in one transaction, column by column as SessionColumns.EachColumn and ConfirmedExactly say; an invalid id or an unknown bank changes nothing. |
| Sessions.Store.Gc | crates/memgarden-store/src/sessions.rs:359-367 | A row stays, unchanged, exactly if it was seen at or after the cutoff, and the others are counted. |
| Sessions.GcKeepsSafety | crates/memgarden-store/src/sessions.rs:359-367 | Collecting keeps what every run keeps for a session exactly if it was seen since the cutoff, has no row, or has posted nothing. |
| Sessions.MergeIsMonotone | crates/memgarden-store/src/sessions.rs:252-281 | No write moves a cursor or a count back, and a session's origin is set once. |
| Sessions.RepeatChangesNothing | crates/memgarden-store/src/sessions.rs:128-134 | A write that uses at most one confirm channel and adds nothing may be repeated. |
| Sessions.RepeatExactly | crates/memgarden-store/src/sessions.rs:263-276 | A write that adds nothing may be repeated exactly unless its first application opens the guard of one confirm channel for the other; the condition is on the row and the clamped confirms. |
| Sessions.RepeatWithBothChannels | crates/memgarden-store/src/sessions.rs:263-276 | A row and a write with both channels that meet it: repeating moves the durable cursor from 5 to 9. |
| Sessions.EveryRunIsSafe | crates/memgarden-store/src/sessions.rs:232-281 | Over every run of reports, accepts, clean runs, repeats and reorderings: every byte below the durable cursor lies in a settled range, and it never passes the optimistic one. |
| Sessions.NewlyConfirmed | crates/memgarden-store/src/sessions.rs:263-276 | A confirm covers every byte it moves the durable cursor over. |
| Sessions.InflightShowsLoss | crates/memgarden-store/src/sessions.rs:98-115 | While a posted byte is unsettled it lies in the in-flight window, so that number is positive. |
| Sessions.RecoverySkipsNothing | crates/memgarden-cli/src/state.rs:218-246 | A hook rebuilt from the mirror starts at or before every unsettled byte. |
| Sessions.OptimisticSeedPassesPosted | crates/memgarden-cli/src/state.rs:218-246 | On every run, a hook rebuilt from the optimistic cursor instead would start past every posted byte, settled or not. |
| Sessions.OptimisticSeedSkips | crates/memgarden-cli/src/state.rs:218-246 | So it would skip a queued range of any length whole, with none of it settled. |
| Sessions.CleanKeepsOrder | crates/memgarden-store/src/sessions.rs:232-281 | A clean run keeps the cursors in order exactly when its range was mirrored or the guard holds it back, with or without a row. |
| Sessions.GcInvertsCursors | crates/memgarden-store/src/sessions.rs:359-367 | Queued, collected, then cleanly run, from any table: the in-flight number reads zero, and the cursors are inverted exactly when the range starts at zero and is not empty. |
| Sessions.AdvanceIsUpsert | crates/memgarden-store/src/sessions.rs:263-276 | The range guard on its own is what the table does with a clean run. |
| Sessions.NeverPastAGap | crates/memgarden-store/src/sessions.rs:218-223 | No order of clean ranges, with any repeats, moves the cursor over an uncovered byte. |
| Sessions.OrderIsIrrelevant | crates/memgarden-store/src/sessions.rs:263-276 | Applied until nothing changes, in any order, they leave the cursor at the least byte that none covers. |
| Sessions.Settle | crates/memgarden-store/src/sessions.rs:263-276 | Applying until nothing changes ends, after at most as many changes as ranges end beyond the cursor. |
| SessionColumns.EachColumn | crates/memgarden-store/src/sessions.rs:199-313 | Every column of a row after a write, against the row before and the update, an absent row counting as zeros: maxima, sums of deltas that are not negative, last given values, the origin once. |
| SessionColumns.ConfirmedExactly | crates/memgarden-store/src/sessions.rs:263-276 | The durable cursor moves to the highest value that is admitted, by a range whose start it has reached or on the spot by a row without a gap, if that is ahead of it; also on a first write. |
| SessionColumns.AcceptOnTheSpot | crates/memgarden-store/src/sessions.rs:263-276 | A range settled on the spot moves the cursor to the larger of it and the end of the range exactly when no gap was open, with or without a row. |
| SessionColumns.CleanAdvances | crates/memgarden-store/src/sessions.rs:263-276 | A clean run moves it by the range guard, with or without a row. |
| SessionColumns.NothingInFlight | crates/memgarden-store/src/sessions.rs:98-115 | Over every run: a session whose ranges were all settled on the spot, with no report past them, has nothing in flight. |
| SessionColumns.DrainedSoFar | crates/memgarden-store/src/sessions.rs:263-276 | Ranges queued end to end and run cleanly in order move the durable cursor to the end of each in turn. |
| SessionColumns.DrainedInOrder | crates/memgarden-store/src/sessions.rs:98-115 | When the last has run, nothing is in flight. |
| Transcript.ReadDelta | crates/memgarden-cli/src/transcript.rs:123-202 | The loop with its window and running total gives whole lines consumed, the longest suffix that fits, the compactions, and truncated exactly if something was dropped; a file that cannot be opened reads as nothing. |
| Transcript.DropLeading | crates/memgarden-cli/src/transcript.rs:185-197 | The suffix rule on the window, with its total and the truncation flag. |
| Transcript.WeightIsBody | crates/memgarden-cli/src/transcript.rs:137-142 | For a nonempty window the total plus one is the exact length of the posted array. |
| Transcript.LongestFitIsSuffix | crates/memgarden-cli/src/transcript.rs:105-120 | What is kept is a suffix of the messages and fits. |
| Transcript.LongestFitIsLongest | crates/memgarden-cli/src/transcript.rs:105-120 | No longer suffix fits. |
| Transcript.WindowSuffices | crates/memgarden-cli/src/transcript.rs:185-197 | Dropping early loses nothing: the window alone decides what the whole history would. |
| Transcript.ConsumedIsLines | crates/memgarden-cli/src/transcript.rs:17-24 | The bytes passed over are whole lines within the limit, none torn, and no whole line starts where the cursor stops. |
| Transcript.CursorIsBoundary | crates/memgarden-cli/src/transcript.rs:17-24 | From a line boundary the cursor moves to a line boundary. |
| Transcript.ReadsCompose | crates/memgarden-cli/src/transcript.rs:145-201 | Reading F and then F+G from the cursor gives the cursor and compaction count of one read of F+G, and its messages when that read drops none. |
| LineKinds.TurnLine | crates/memgarden-cli/src/transcript.rs:214-236 | A line with an entry of either speaker and a message that names a role gives that message, if one post can hold it. |
| LineKinds.BareLine | crates/memgarden-cli/src/transcript.rs:214-262 | An entry without a kind that has role and content is given as it is. |
| LineKinds.BoundaryLine | crates/memgarden-cli/src/transcript.rs:214-262 | A compaction is counted and gives nothing. |
| LineKinds.OtherLine | crates/memgarden-cli/src/transcript.rs:214-262 | Every other line, JSON or not, gives nothing and is consumed. |
| LineKinds.UnfinishedLine | crates/memgarden-cli/src/transcript.rs:145-201 | A line that has no end in the file, or none within 32 MiB, is left where it is. |
| Tables.InsertKeeps | crates/memgarden-store/src/nodes.rs:17-46 | Inserting a row, at a recycled rowid or a new one, keeps every promise of the tables. |
| Tables.DeleteKeeps | crates/memgarden-store/src/nodes.rs:165-171 | So does deleting one, with the cascade to sources, the nulled pointers, the recounts and the index row. |
| Tables.SourcesWithout | crates/memgarden-store/src/nodes.rs:165-171 | What a deletion takes from the sources of another row. |
| Tables.EmbedKeeps | crates/memgarden-store/src/nodes.rs:244-263 | So does setting an embedding, whether or not the node is still there. |
| Tables.SupersedeAllKeeps | crates/memgarden-store/src/nodes.rs:427-455 | So does any list of retractions. |
| Tables.LinkAllKeeps | crates/memgarden-store/src/consolidate.rs:648-664 | So does linking sources, up to the recount that follows. |
| Tables.RecountKeeps | crates/memgarden-store/src/consolidate.rs:669-683 | The recount restores the one count that was off. |
| Consolidation.CreatedIsValid | crates/memgarden-store/src/consolidate.rs:129-166 | A created observation leaves count, index and links in step. |
| Consolidation.CreatedSources | crates/memgarden-store/src/consolidate.rs:648-664 | Its sources are the named nodes of its bank, and itself exactly when the rowid it was given was named. |
| Consolidation.FoldedUnites | crates/memgarden-store/src/consolidate.rs:207-264 | A merge leaves the survivor with the sources of both less the other observation, that count, the merged text, and its vector exactly if the text did not change. |
| Consolidation.FoldedIsValid | crates/memgarden-store/src/consolidate.rs:207-264 | A merge keeps every promise of the tables. |
| PlanResults.PlanOnObservation | crates/memgarden-store/src/consolidate.rs:419-473 | An observation that was there: gone if a delete names it; otherwise with the text of the last update that names it, its vector exactly if no update changed the text, and its sources with the named nodes of the bank added and those gone left out. |
| PlanResults.PlanOnCreate | crates/memgarden-store/src/consolidate.rs:419-473 | Each observation the plan creates is there under its uuid with its text, vector and sources, updated and deleted like any other. |
| PlanResults.PlanLeaves | crates/memgarden-store/src/consolidate.rs:419-473 | Nothing that a delete names is left, and whatever is new was created by the plan. |
| PlanResults.UpdatesReported | crates/memgarden-store/src/consolidate.rs:439-461 | The updates reported are those whose observation was there, in order. |
| PlanResults.DeletesReported | crates/memgarden-store/src/consolidate.rs:462-470 | Each observation that went is counted once, however often it was named. |
| PlanLaws.MergeIsSafe | crates/memgarden-store/src/consolidate.rs:207-264 | After any deletes and inserts with recycled rowids, a merge changes or deletes only the observations of that bank it names by uuid. |
| PlanLaws.PlanIsSafe | crates/memgarden-store/src/consolidate.rs:419-473 | The same for a whole plan, over creates, updates and deletes in order. |
| PlanLaws.FactsSurvive | crates/memgarden-store/src/consolidate.rs:175-177 | No plan removes or rewrites a source fact, whatever uuids it names. |
| PlanLaws.FactsSurviveMerge | crates/memgarden-store/src/consolidate.rs:175-177 | Nor does a merge. |
| PlanLaws.OtherBanksUntouched | crates/memgarden-store/src/consolidate.rs:419-473 | A plan leaves every row of another bank exactly as it is. |
| PlanLaws.OtherBanksUntouchedByMerge | crates/memgarden-store/src/consolidate.rs:207-264 | So does a merge. |
| PlanLaws.RowidComesBack | crates/memgarden-store/src/consolidate.rs:188-197 | The rowid of a deleted last row is the next one handed out. |
| PlanLaws.OrphanVectorRefuses | crates/memgarden-store/src/nodes.rs:244-263 | A vector set for a node that has gone makes the next observation at that rowid fail. |
| PlanLaws.OrphansExactly | crates/memgarden-store/src/nodes.rs:244-263 | Setting a vector leaves an orphan exactly when the node has gone; without orphans a create fails only for its vector, bank or uuid. |
| Supersession.ChainEnd | crates/memgarden-store/src/nodes.rs:427-455 | Every chain of supersession ends, in an unretracted, later node of the same bank. |
| Supersession.ChainsRise | crates/memgarden-store/src/nodes.rs:427-455 | Along a chain (created_at, id) rises strictly within one bank, so none is circular. |
| Supersession.GuardIsExact | crates/memgarden-store/src/nodes.rs:433-446 | The retraction guard admits exactly the pointers that keep that order. |
| Supersession.ServedInstead | crates/memgarden-store/src/search.rs:260-298 | A retracted node is never served; the end of its chain is, if asked for and not expiring. |
| Supersession.DeleteRevives | crates/memgarden-store/src/nodes.rs:165-171 | Deleting a node takes it out of what is served and puts in exactly the live nodes it had superseded, with their text and vector; every other answer is as before. |
| StoreSteps.BatchRowids | crates/memgarden-store/src/nodes.rs:61-103 | A batch gets consecutive rowids in its order and one timestamp. |
| StoreSteps.RebuildIsExact | crates/memgarden-store/src/search.rs:437-492 | An unscoped rebuild leaves exactly the non-null embeddings, each in its bank's partition. |
| StoreSteps.ScopedRebuildKeeps | crates/memgarden-store/src/search.rs:437-492 | A scoped rebuild keeps every embedding indexed exactly when no other bank's vector has strayed into the scope; with vectors under their own banks none has, and setting a vector keeps them so exactly when it names the bank of the node there by then. |
| StoreSteps.StoppedLoses | crates/memgarden-store/src/search.rs:437-492 | After a rebuild that stopped at a clash, an embedding of the scope is indexed if its chunk came before; of the rest only another bank's row is there. |
| Store.Db.NextId | crates/memgarden-store/src/nodes.rs:17-46 | One more than the largest rowid in use, or 1. |
| Store.Db.Insert | crates/memgarden-store/src/nodes.rs:17-46 | One row, or an error and no change. |
| Store.Db.InsertBatch | crates/memgarden-store/src/nodes.rs:61-103 | All rows of a batch, or an error and no change. |
| Store.Db.Delete | crates/memgarden-store/src/nodes.rs:165-171 | The row with its cascades. |
| Store.Db.UpdateText | crates/memgarden-store/src/nodes.rs:208-232 | New text, no embedding, and every promise kept. |
| Store.Db.SetEmbedding | crates/memgarden-store/src/nodes.rs:244-263 | Column and index in one transaction, every promise kept. |
| Store.Db.SetEmbeddingsBatch | crates/memgarden-store/src/nodes.rs:352-373 | All of a batch, or an error and no change. |
| Store.Db.MarkSuperseded | crates/memgarden-store/src/nodes.rs:427-455 | The retractions that pass the guard, counted. |
| Store.Db.ClearSuperseded | crates/memgarden-store/src/nodes.rs:467-479 | Undoes one retraction. |
| Store.Db.InsertObservation | crates/memgarden-store/src/consolidate.rs:115-166 | A whole observation, or an error and no change. |
| Store.Db.MergeObservation | crates/memgarden-store/src/consolidate.rs:207-264 | The merge with the survivor's rowid and count; every error, also that of merging an observation into itself, changes nothing. |
| Store.Db.ApplyPlan | crates/memgarden-store/src/consolidate.rs:419-473 | The plan with what it actually did, which is PlanResults.PlanOnObservation, PlanOnCreate and PlanLeaves on the rows, UpdatesReported and DeletesReported on the answer; an error in any create changes nothing. |
| Store.Db.RebuildVecIndex | crates/memgarden-store/src/search.rs:437-492 | A rebuild that runs alone: it fails exactly when another bank's index row sits on a rowid it needs, and never unscoped; a failure leaves the index without the scope plus the whole chunks of 500 before the first clash. Other writes in between are the rows of RebuildRace. |
| RebuildRace.EndsInStep | crates/memgarden-store/src/search.rs:437-492 | With any other writes between its transactions, a rebuild that gets through leaves every embedding indexed exactly when none was missed: cleared, not in the snapshot as it then was, and not written since. |
| RebuildRace.MissedWhenQuiet | crates/memgarden-store/src/search.rs:437-492 | With no write between the snapshot and the clear only embeddings strayed into the scope from another bank are missed. |
| RebuildRace.FailsExactly | crates/memgarden-store/src/search.rs:478-489 | The next chunk fails exactly when a rowid of it has a row by then, one that another write put there or one of another bank; unscoped, only by another write. |
| RebuildRace.OrphansExactlyLate | crates/memgarden-store/src/search.rs:478-489 | Beside writers that leave no orphans, no state of the run has one exactly when each node was still there when its row went in. |
| RebuildRace.AloneIsExact | crates/memgarden-store/src/search.rs:437-492 | Without other writes the steps are those of the rebuild that runs alone. |
| RebuildRace.StatementsAreLawful | crates/memgarden-store/src/nodes.rs:165-171 | Each statement of the store leaves the index in step at the rowids it touches, even while a rebuild has it cleared. |
| RebuildRace.PlanIsLawful | crates/memgarden-store/src/consolidate.rs:419-473 | So does a whole plan. |
| RebuildRace.MergeIsLawful | crates/memgarden-store/src/consolidate.rs:207-264 | So does a merge. |
| RebuildRace.EmbedsAreLawful | crates/memgarden-store/src/nodes.rs:352-373 | So does a batch of vectors. |
| RebuildRace.EmbedAfterClearFails | crates/memgarden-store/src/search.rs:478-489 | Setting the vector of a node of the first chunk after the clear makes the rebuild fail, with no clash in the tables. |
| RebuildRace.EmbedBeforeClearIsLost | crates/memgarden-store/src/search.rs:440-477 | A vector set between the snapshot and the clear is not in the index of a rebuild that got through. |
| RebuildRace.DeleteLeavesOrphan | crates/memgarden-store/src/search.rs:437-492 | A node deleted between the snapshot and its chunk comes back as an orphan row. |
| Store.Db.Hydrate | crates/memgarden-store/src/search.rs:260-298 | Exactly the live rows of the bank among the ids. |
| StatementLaws.LastVectorWins | crates/memgarden-store/src/nodes.rs:352-373 | After a batch of vectors each rowid has the last one given for it, in the column and in the index; every other rowid keeps what it had. |
| StatementLaws.RetractionsExactly | crates/memgarden-store/src/nodes.rs:427-455 | After a list of retractions each node has the pointer of the first pair that may retract it, as the tables stood before the call, and is untouched if none may. |
| StatementLaws.RetractionsCounted | crates/memgarden-store/src/nodes.rs:427-455 | The answer is how many nodes some pair of the list may retract. |
| StatementLaws.DeletedRows | crates/memgarden-store/src/nodes.rs:165-171 | What a deletion leaves of every other row, index row and source link. |
| StatementLaws.TextUpdatedRow | crates/memgarden-store/src/nodes.rs:208-232 | A new text drops the vector of the row but not its index row, and touches no other column or row. |
| StatementLaws.ServedExactly | crates/memgarden-store/src/search.rs:260-298 | What is served: the rows of the bank among the ids that nothing supersedes and that have not expired by now. |
| MentalModels.Store.Insert | crates/memgarden-store/src/mental_models.rs:149-179 | Row and vector together, or an error and no change; the vector table stays exactly the set embeddings. |
| MentalModels.Store.Update | crates/memgarden-store/src/mental_models.rs:198-266 | A patch of any columns, those not given kept, with its vector and producer cleared or rewritten or kept; the two tables stay in step. |
| MentalModels.Store.Delete | crates/memgarden-store/src/mental_models.rs:344-352 | Row and vector go together. |
| MentalModels.Store.RecordCitations | crates/memgarden-store/src/mental_models.rs:73-92 | Counters rise once per citation of a model of the bank; no vector changes. |
| MentalModels.PatchKeeps | crates/memgarden-store/src/mental_models.rs:198-266 | A patch of any row keeps the vector table exactly the set embeddings, and a producer named exactly where there is one. |
| ModelLaws.PatchedColumns | crates/memgarden-store/src/mental_models.rs:198-266 | Each column of a patched row: the new value where one was given, the old one otherwise, with the trigger and the vector cleared on demand. |
| ModelLaws.PatchOnce | crates/memgarden-store/src/mental_models.rs:198-266 | An empty patch changes nothing and a patch applied twice is applied once. |
| ModelLaws.CitedColumns | crates/memgarden-store/src/mental_models.rs:73-92 | A model's counter rises by the number of times the list names it, and its date is set exactly if it does. |
| ModelLaws.HitsCounted | crates/memgarden-store/src/mental_models.rs:73-92 | The answer counts the places of the list that name a model of the bank. |
| Metrics.Histogram.RecordUs | crates/memgarden-core/src/metrics.rs:65-74 | Buckets, count, wrapped sum and maximum follow the samples. |
| Metrics.Histogram.QuantileUs | crates/memgarden-core/src/metrics.rs:95-117 | The loop over the cumulative counts finds the bucket of the rank and the quantile that QuantileIsNear is about; it never runs past the last bucket. |
| Metrics.Histogram.TakeSnapshot | crates/memgarden-core/src/metrics.rs:80-138 | None for no samples; otherwise the exact count, mean and maximum, the four quantiles, and exact counts under 35 ms and 60 ms. |
| Metrics.QuantileIsNear | crates/memgarden-core/src/metrics.rs:95-117 | The quantile lies in the bucket of the sample of its rank and never above the largest sample. |
| Metrics.RankExists | crates/memgarden-core/src/metrics.rs:95-117 | There is a sample of every rank. |
| Metrics.QuantilesInOrder | crates/memgarden-core/src/metrics.rs:95-117 | Quantiles rise with q. |
| Metrics.Cumulate | crates/memgarden-core/src/metrics.rs:88-94 | The running sums are the samples up to each bound. |
| QuantileLaws.QuantileIsLinear | crates/memgarden-core/src/metrics.rs:95-117 | In a bucket that holds c samples the j-th of them stands j of c equal steps above the lower edge, the last at the upper edge, before the cap by the maximum; samples are counted as positions. |
| QuantileLaws.NearestRank | crates/memgarden-core/src/metrics.rs:95-117 | The rank of a quantile is the first that reaches the fraction of the samples, at least the first and at most the last. |
| QuantileLaws.AtMostCounts | crates/memgarden-core/src/metrics.rs:88-94 | The cumulative counts are the numbers of samples up to a value. |
| QuantileLaws.Edges | crates/memgarden-core/src/metrics.rs:20-41 | The edges of the twenty buckets. |
| Migrate.EveryRaceIsConsistent | crates/memgarden-store/src/migrate.rs:54-93 | For any number of processes of any builds, however their transactions interleave and whichever are killed: exactly the migrations up to the current version have run, each once, ascending. |
| Migrate.PassedExactly | crates/memgarden-store/src/migrate.rs:72-91 | A file goes past a version exactly by the transaction of the next one, run by a process whose build has it. |
| Migrate.FinishedIsLatest | crates/memgarden-store/src/migrate.rs:54-93 | A process that finishes leaves at least its own latest version with all migrations up to the version run once; it is its own exactly when no newer build has gone past it. |
| Migrate.OneBuildFinishes | crates/memgarden-store/src/migrate.rs:54-93 | Among processes of one build a finished one leaves its latest version. |
| Migrate.NewerIsRefused | crates/memgarden-store/src/migrate.rs:62-71 | On a file newer than every build nothing runs and no process finishes. |
| Migrate.OlderFinishesLate | crates/memgarden-store/src/migrate.rs:62-71 | An older build that has looked before a newer one migrates still finishes, on a version it does not know. |
| Migrate.BetweenIsSlice | crates/memgarden-store/src/migrate.rs:11-44 | Those migrations are a stretch of the list. |
| Migrate.File.Migrate | crates/memgarden-store/src/migrate.rs:54-93 | One process alone: a newer file is refused untouched, any other ends at the latest version. |
| Http.ReadResponse | crates/memgarden-cli/src/http.rs:348-405 | For one way of cutting, the two read loops give the outcome that CutsDoNotMatter is about. |
| Http.CutsDoNotMatter | crates/memgarden-cli/src/http.rs:348-405 | Unless the blank line ends in the gap past the head limit, every way of cutting the stream gives the same answer: status and exactly the declared bytes after the first blank line, or the same error (section 6.3 of RFC 9112). |
| Http.FoundIsAnswered | crates/memgarden-cli/src/http.rs:384-404 | Once the head has been seen the cuts never matter. |
| Http.CutsMatterExactlyInTheGap | crates/memgarden-cli/src/http.rs:365-382 | The answer depends on the cuts exactly when the blank line ends more than one byte past the limit but within one full read of it. |
| Head.ParseHead | crates/memgarden-cli/src/http.rs:414-491 | A head is read exactly when it has a status, no transfer coding, at least one length with all of them equal and in range, and the expected token last. |
| Head.EncodePathSegment | crates/memgarden-cli/src/http.rs:500-511 | The bytes are escaped one by one into the text that SegmentRoundTrip decodes. |
| Head.SegmentRoundTrip | crates/memgarden-cli/src/http.rs:500-511 | An encoded segment decodes to the raw bytes, and holds only unreserved characters and percent signs. |
| Exchange.HeadRead | crates/memgarden-cli/src/http.rs:414-491 | A head composed of a status line and any headers, in any case and with any blanks around their values, is read as exactly what its headers say: no transfer coding, one length however often, the token in the last of its headers. |
| Exchange.AnswerArrives | crates/memgarden-cli/src/http.rs:348-405 | An answer composed of such a head and a body arrives as its status and exactly its body, whatever pieces it comes in and whatever follows; a body that breaks off is an error with how much came. |
| Exchange.NumberRead | crates/memgarden-cli/src/http.rs:450-470 | A number is read exactly when it is a decimal, behind an optional plus and zeros, within its type. |
| Exchange.SegmentIsPlain | crates/memgarden-cli/src/http.rs:500-511 | An encoded segment has letters, digits, four marks and escapes only. |

## Left out

- JSON acceptance: the reference reader takes RFC 8259 texts; serde_json's nesting limit, number range and lone-surrogate rejection only refuse more.
- Non-ASCII escapes: an escaped character above 127 decodes to one placeholder, which no key or value that is compared contains.
- `Path::to_string_lossy`, UTF-8 validity of the settings file, backups, `write_atomic`, permissions and links.
- `legacy_commands` and `wired_command`: reads of a parsed document.
- Unicode lower-casing and trimming (`normalize`) and `char::is_numeric` are parameters of Resolution.
- IEEE rounding: the equality case of the score threshold is over reals; ratio symmetry is not claimed.
- `load_resolution_context` and `insert_links`; new entity ids are handed out in any order of the names, where the code sorts them.
- The order in which a component lists its fact types, `links_by_type` as a sorted list, and `provenance_edges`.
- Integer widths of cursors, counts and timestamps, except the wrapping latency sum.
- Sessions: the clock is a parameter; a mirror write that is lost (it is logged and swallowed) is outside the runs, as is collection; `list` and `get` are reads.
- `SessionState` file handling (`path_for`, `load`, `store`, `gc`) and the circuit breaker.
- Transcript: a read error in the middle of a file; JSON parsing and rendering are parameters.
- SQLite, FTS5, vec0 and triggers as mechanisms; node columns that no modelled statement reads (context, document, dates, tags, links, embedding model); bank deletion; the fact that uuids are fresh is checked, as the unique index does.
- `unconsolidated`, `finish_run`, `watermark`, `fts_query_string`, nearest-neighbour search.
- RebuildRace: two rebuilds at once, and the bank cascade; the order in which the snapshot lists its rows is any.
- Reformatted: chunks on a line that does not start them, which are cut nowhere or with what starts the line.
- Metrics: concurrent recording, under which counters may be read between two additions.
- Migrate: the scripts themselves, and failures other than a process that stops; builds are taken to number their migrations alike, from one and without gaps.
- Http: timeouts, connecting and writing the request; `Target::parse`; Http.ReadResponse takes the head parser as a parameter; Exchange.AnswerArrives puts the two together.
