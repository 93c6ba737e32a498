# eau2 verification

eau2 is a small distributed data-frame system: nodes keep key-value stores, talk over framed messages, cut columns into
segments that are spread over the nodes, read SoR files, and run an application, Linus, that searches a graph of commits
for everybody connected with one user. This project models its layers in Dafny and proves what they promise.

`dafny verify dfyconfig.toml` checks everything.

## How the model is built

The layers, from the application down:

- **The search** (`Search`, `TagSets`): the naive search that rescans all commits each round, the deltas that the nodes
  really exchange, and the mutable sets, taggers and set writer. Ids that are out of range count as tagged, as in the
  source; Linus himself is only the first query and does not start inside the user set.
- **The distributed run** (`LinusModel`, `LinusLocal`, `LinusSystem`, `LinusTheorems`, `LinusSafety`,
  `LinusTermination`, `LinusProgress`, `LinusStandstill`, `LinusHeldBack`, `LinusLargeSets`, `LinusSteps`, `LinusBlocking`,
  `LinusFailures`, `LinusScan`): every node
  runs its program counter over the key-value protocol, in any interleaving with the connection threads. Each exchanged
  set is cut into segments of the default capacity, and segment s of every frame lives on node s modulo the number of
  nodes. What the nodes compute, that no key is written twice, and a bound on all runs hold for sets of any size; when
  gets can fail and when runs can block is stated exactly. `LinusScan` ties the scan of the program to the taggers and
  to the rows of `local_map`.
- **The protocol** (`Protocol`, `StepEffects`, `Runs`, `Publishing`, `KvNodes`): a state machine with one application
  thread per node, FIFO links, in-order handling that blocks behind a waiting get, unacknowledged puts and replies
  without an id. The applications on top are arbitrary. `KvNodes` has the store and connection objects, whose methods follow
  the machine.
- **Columns and frames** (`SegmentNames`, `Segments`, `Arrays`, `Columns`, `Placement`, `Frames`, `FrameStore`, with
  `Arith` and `Ints`): fields of four types, columns with their one-segment cache over a store of bytes, the local
  indices, the reused row, frames built from writers and mapped by readers, and frames as bytes in the store. A writer
  is any terminating script of assignments to the row. Every segment is written and read through the serializer, and an
  empty text makes that fail.
- **The SoR reader** (`Lines`, `Scanner`, `Guessing`, `Parser`, `SorFrames`, `SorTables`): the line reader over reads of
  any length, the quoting scanner, type guessing, the three passes over a file, the stored frame, and the round trip of a
  written table. A failing assertion of the source is a result, not a precondition.
- **Bytes** (`Wire`, `Serial`, `Formats`, `Messages`, `Streams`, `Layouts`): formats as shapes with one proof of their
  round trip in both directions, the same formats spelled out byte by byte, the growing buffer and the cursor, the
  writing and reading loops of every class, and message streams through partial sends and receives.
- **Registration** (`Registration`): the controller's loop, the directory, and the clients' tables.

Objects that the source changes in place are classes here (sets, taggers, columns, rows, frames, line reader, parser,
serializers, arrays, sockets, controller and clients); the interleaved system is a state machine on values. Ghost names
such as `pushed`, `Rest()` or `Contents()` give the abstract value of an object.

## What the proofs found

- A reader on a third node can obtain a frame before its segment has reached the segment's home, and its get then fails.
  `Publishing.SafeHomesExactly` says for which placements this cannot happen. In Linus no get fails if and only if there
  are at most two nodes or the merged set of each round takes one segment (`LinusFailures.GetsNeverFailExactly`).
- Linus can also block for ever, even with two nodes: when node 0 asks node 1 for the second segment of a set, node 1's
  answer stands behind its own waitAndGet for the set that node 0 is about to publish. This can happen if and only if
  there are two nodes or more and some set that node 0 reads, a set of another node or its own merged users, has more
  than one segment (`LinusBlocking.RunsFinishExactly`); `LinusBlocking.RunsFinishForAnyCommits` says for which
  configurations no commits can bring this about.
- An empty string cannot be stored: the parser accepts a field of two quotes, and writing its segment then fails. A
  frame is built exactly if no text is empty (`Frames.FromVisitor`, `SorFrames.SorFileIsReadExactly`,
  `SorTables.QuotesAloneFail`).
- A connection's thread fails its assertion on a REGISTER or DIRECTORY message before a kill (`Streams.Run`).
- Segment names are cut to 14 characters, so that segments 100 and 1000 of a column with a ten-letter id share a name:
  on one node the later replaces the earlier, and the cache takes either for the other
  (`SegmentNames.NamesAreDistinctExactly`).
- `local_indices` gives a whole segment of indices for an empty column (`Placement.RowsArePartitionedExactly`).
- A column that is read back always has the default capacity; it reads other elements, or none, unless it was built with
  it or fits one segment (`Segments.ReopensExactly`).
- Publishing a set is exact up to members below 2 to the 31 only (`TagSets.PublishedSetReadsBack`).
- A field counts as a number as soon as one of its characters is numeric, so that `abc1` makes a bool column
  (`SorTables.TableIsReadBackExactly` says which tables survive this); lines after
  the first 500 fail the parse if they have more fields or something else than 0 and 1 in a bool column
  (`Parser.GuessIsSoundForTheParse`, `Parser.LaterLineFails`); a blank line is harmless, but a line with some fields
  missing makes the frame's length assertion fail (`SorFrames.SorFileIsReadExactly`).
- The controller's table stops growing only with enough different node numbers; a repeated number makes it wait
  (`Registration.RegistrationEndsExactly`).

## Model

| member | source | states |
|---|---|---|
| Search.RoundByCommits | src/linus.cpp:122-173 | one round commit by commit: it tags the projects of all commits by tagged users, by Linus or by out-of-range users, and then the users of all commits to tagged or out-of-range projects |
| Search.ProjectDeltaIsSemiNaive | src/linus.cpp:134-143 | rescanning all commits from the last user delta alone, minus the known projects, gives exactly what the naive rescan from all tagged users adds; out-of-range authors count as tagged in both |
| Search.UserDeltaIsSemiNaive | src/linus.cpp:163-172 | the same for users, rescanning from the last project delta alone |
| Search.DeltasAreDisjoint | src/linus.cpp:245-268 | no project and no user is announced in two different stages |
| Search.DeltasAreConserved | src/linus.cpp:245-268 | the sizes of the announced deltas of k stages add up to the sizes of the two tag sets |
| Search.ClosedByCommits | src/linus.cpp:122-173 | a pair of sets is closed if and only if no commit adds a project or a user to it |
| Search.BelowEveryClosedPair | src/linus.cpp:245-268 | what is tagged after any number of rounds lies within every pair of sets that is closed under the commits |
| Search.EmptyDeltaIsFinal | src/linus.cpp:245-268 | once a user delta is empty all later deltas are, the sets no longer change, and they are the least closed sets |
| Search.EndsWithinUsersPlusOne | src/linus.cpp:245-268 | after as many rounds as there are users, plus one, the sets are the least closed sets, whatever the commits are |
| TagSets.Set.Insert | src/linus.cpp:46-49 | the set gains exactly the index, and nothing if the index is out of range |
| TagSets.Set.Union | src/linus.cpp:62-66 | the set gains exactly the in-range members of the other one |
| TagSets.UpdateFrom | src/linus.cpp:73-85 | mapping SetUpdater over a column adds exactly the in-range ids that occur in it |
| TagSets.ProjectsTagger.Visit | src/linus.cpp:134-143 | a row tags its project exactly if the author is tagged (out-of-range authors are) and the project is not; both sets gain it |
| TagSets.ProjectsTagger.LocalMap | src/linus.cpp:122-144 | over all local rows the new projects are one rescan from the user delta minus the projects known before, and the project set gains just these |
| TagSets.UsersTagger.Visit | src/linus.cpp:163-172 | a row tags its user exactly if its project is tagged and the user is not; both sets gain it |
| TagSets.UsersTagger.LocalMap | src/linus.cpp:154-173 | over all local rows the new users are one rescan from the project delta minus the users known before, and the user set gains just these |
| TagSets.SetWriter.Done | src/linus.cpp:100-103 | stops at the next member, skipping only non-members, or reports the end |
| TagSets.Publish | src/linus.cpp:92-110 | the writer loop terminates and writes the members once each in increasing order, cut to 32 bits |
| TagSets.AscendingIsSorted | src/linus.cpp:100-109 | that sequence is strictly increasing and has exactly the members |
| TagSets.PublishedSetReadsBack | src/linus.cpp:73-110 | publishing a set and reading the rows back gives the same set if and only if every member is below 2 to the 31 |
| Protocol.StepKeepsInv | src/network/network_ifc.h:252-310 | every step of every node keeps the pairwise invariant: a waiting thread has exactly one request, reply in flight or queued reply with the node it asks and a running one has none, and a request or its answer has no put of the asker before it |
| Runs.PutsAreFifo | src/network/connection.h:71-79 | over every run the puts handled at their home followed by those still on the link are exactly the puts issued, in order: none lost, repeated or invented |
| Runs.AskFindsEmptyQueue | src/network/network_ifc.h:283-310 | in every run the reply queue is empty whenever a request is sent |
| Runs.ReplyAnswersTheQuestion | src/network/network_ifc.h:263-278 | in every run the queue then holds exactly one reply, and it is what the home held for the key just asked at some moment since the question, after all puts of the asker |
| KvNodes.KVStore.PutHere | src/store/kvstore.h:115-125 | a local put moves the store as the put step moves the system |
| KvNodes.KVStore.GetHere | src/store/kvstore.h:52-63 | a local get gives the stored value and changes nothing |
| KvNodes.Connection.HandleMessage | src/network/connection.h:141-158 | handling any message of the peer moves store, reply queue and outgoing link as the handling step moves the system |
| KvNodes.Connection.PutAtNode | src/network/network_ifc.h:252-257 | a remote put moves the link as the put step does |
| KvNodes.Connection.AskNode | src/network/network_ifc.h:283-310 | the assertion that no reply is queued holds in every state of the invariant, and the request moves the link as the asking step does |
| KvNodes.Connection.ProcessReply | src/network/network_ifc.h:263-278 | the assertion that one reply is queued holds in every state of the invariant, and the value is the head of the queue that the step removes |
| Publishing.SegmentIsFound | src/dataframe/column.h:205-210 | with safe homes, in every run, whoever has obtained a frame finds the segment that its writer put before it, at every later moment, although puts are never acknowledged |
| Publishing.UnsafeHomesRace | src/store/kvstore.h:52-63 | for every other placement there is a run, given explicitly, in which the reader has the frame and its lookup of the segment fails |
| Publishing.SafeHomesExactly | src/store/kdstore.h:61-66 | so every run finds the segment if and only if it lives with the frame, with the writer, with the reader when the writer also keeps the frame, or the writer is the reader |
| LinusLocal.UnionOfFindings | src/linus.cpp:276-293 | the union over all nodes of what each finds on its own commits in a round is the delta of the naive search over all commits |
| LinusLocal.RowsReadBack | src/linus.cpp:286-310 | what a node publishes in a round reads back as exactly the set it stands for, and an empty frame as the empty set |
| LinusLocal.PartAll | src/dataframe/column.h:259-274 | the members read from all segments of a published set, one segment after the other, are the set |
| LinusLocal.PutIsRight | src/linus.cpp:204-310 | in a right local state each put carries the value that its key prescribes, and the next local state is right |
| LinusLocal.ReadIsRight | src/linus.cpp:204-310 | if a read returns what its key prescribes, the next local state is right |
| LinusTheorems.InvariantHolds | src/linus.cpp:204-310 | in every reachable state of every interleaving, for sets of any number of segments, each node holds exactly the sets that the naive search prescribes for its place in the program, asks only what its program is at, and has its commit segments once it has the commits frame |
| LinusTheorems.EveryNodeSearchesNaively | src/linus.cpp:245-268 | for any number of nodes, stages and segments and any interleaving, a node that starts stage k holds exactly the sets of k rounds of the naive search over all commits, and a node that is done those of all rounds |
| LinusTheorems.EnoughStagesReachTheFixpoint | src/linus.cpp:204-207 | with more stages than users, every node that is done holds the least closed sets |
| LinusTheorems.ReadsAreDetermined | src/store/kvstore.h:94-107 | what a read returns depends on its key only, never on the schedule |
| LinusSafety.SegmentIsWithinReach | src/dataframe/column.h:259-274 | with at most two nodes, or merged sets of one segment, a program that reads a segment of a frame in hand finds it at its home, at any moment of any run |
| LinusSafety.NothingFails | src/network/network_ifc.h:263-310 | with at most two nodes, or merged sets of one segment, in every reachable state of every run no assertion of the store or the network layer fails: each get finds its key, queues are as asserted, and the rows of local_map are within reach |
| LinusSafety.OwnSetsAreSmall | src/linus.cpp:276-293 | what a node finds by itself takes one segment if the merged set of the round does |
| LinusHeldBack.AllStandOpen | src/linus.cpp:276-310 | if node 0 is held back before it puts the second segment of the first large merged set, and the others before they ask for it, and nothing else can move, then either an assertion has failed or all nodes are at these places with nothing on any link |
| LinusFailures.FailingRun | src/store/kvstore.h:52-63 | for three or more nodes the first merged set that needs a second segment makes some run fail an assertion, whatever the sets of the single nodes are |
| LinusFailures.GetsNeverFailExactly | src/store/kvstore.h:52-63 | for every configuration and all commits no run fails an assertion if and only if there are at most two nodes or the merged set of each round takes one segment |
| LinusFailures.GetsNeverFailForAnyCommits | src/store/kvstore.h:52-63 | over all commits and all runs no assertion fails if and only if there is no stage, or there are at most two nodes, or projects and users fit one segment each |
| LinusTheorems.FrameWasPublished | src/store/kdstore.h:155-184 | whoever has read a frame, its writer had put each of its segments before it, and the frame only once |
| LinusTheorems.EachKeyIsWrittenOnce | src/linus.cpp:276-310 | no key is put twice in a run, not even by different nodes |
| LinusProgress.NeverStuck | src/linus.cpp:276-310 | with one node, or if every set that node 0 reads takes one segment, some step is possible in every run while some node is not done, although a connection thread that serves a waitAndGet blocks all messages behind it |
| LinusBlocking.BlockedRun | src/network/connection.h:141-174 | the first set of more than one segment that node 0 reads gives a run in which node 0 asks node 1 for the second one and waits for ever: the answer stands behind node 1's own waitAndGet for what node 0 has still to publish |
| LinusBlocking.RunsFinishExactly | src/linus.cpp:245-310 | for every configuration and all commits no run blocks before all nodes are done if and only if there is one node or every set that node 0 reads, its own merged users included, takes one segment; a get that fails an assertion counts here as a step that waits |
| LinusBlocking.RunsFinishForAnyCommits | src/linus.cpp:245-310 | over all commits no run blocks if and only if there is one node, or no stage, or projects and users fit one segment each, or so many nodes that none but node 0 can hold two commit segments and then the users fit one segment or there is one stage |
| LinusProgress.SetsThatFitAreSmall | src/dataframe/column.h:23 | if projects and users fit one segment each, so does every set that node 0 reads, whatever the commits are |
| LinusTermination.EveryStepUsesUp | src/linus.cpp:204-310 | every step of every node or connection lowers a natural measure |
| LinusTermination.RunsAreBounded | src/linus.cpp:204-310 | no run is longer than the measure of its first state |
| LinusProgress.CompletedRunIsRight | src/linus.cpp:204-310 | in those cases a run that cannot go on has all nodes done, with the sets of the naive search |
| LinusScan.Scan | src/linus.cpp:245-268 | a scan of the program is what the tagger does, mapped over the rows: it changes the set of all members and collects the new ones |
| LinusScan.ScansBoundedSets | src/linus.cpp:40-60 | whenever a program scans, its sets are within their sizes, as the scan of the taggers needs |
| LinusScan.ScansWhatLocalMapVisits | src/dataframe/dataframe.h:177-184 | the rows that a node scans are those that local_map of the commits frame visits there |
| SegmentNames.NameIsCut | src/dataframe/column.h:197-203 | a segment name is the first 14 characters of id, underscore and decimal number |
| SegmentNames.NamesAreDistinctExactly | src/dataframe/column.h:197-203 | the first n segments of a column have distinct names if and only if n is at most 10 to the 13 minus the length of the id, a thousand for ten letters |
| SegmentNames.FirstCutNameCollides | src/dataframe/column.h:198-199 | the first number that the 14 characters cut gives the same name as an earlier segment |
| SegmentNames.NamesOfTwoColumns | src/dataframe/column.h:197-203 | columns with different ids never share a segment name, cut or not |
| Columns.Column.constructor | src/dataframe/column.h:43-68 | a new column is empty, with one unfilled segment |
| Columns.Column.PutInStore | src/dataframe/column.h:205-210 | the last segment is stored as its bytes under its key, and other columns keep everything; it fails if and only if one of its texts is empty |
| Columns.Column.PushBack | src/dataframe/column.h:243-251 | the column holds the pushed sequence with the value at its end, full segments are stored as bytes where their keys say, and other columns keep everything in the store; it fails exactly when a full segment that has an empty text must be stored |
| Columns.Column.Finalize | src/dataframe/column.h:167-173 | succeeds if and only if no text of the column is empty; all segments are then stored and the pushed sequence is the same, and doing it again changes nothing in the store |
| Columns.Column.Get | src/dataframe/column.h:259-274 | any series of gets in any order returns the pushed elements, the cache staying the stored segment that its key names |
| Columns.Column.Load | src/dataframe/column.h:259-274 | after a lookup the cache is the wanted segment, decoded from its bytes and fetched only if its name is not the cached one |
| Columns.Column.Open | src/dataframe/column.h:75-87 | a column read back from the image of a finalized one holds the same elements, provided the default capacity reopens it |
| Segments.ReopensExactly | src/dataframe/column.h:75-76 | with the default capacity every index of the read-back column finds its own element if and only if the column was built with that capacity or has all elements in one segment of either size |
| Segments.SegmentOfIndex | src/dataframe/column.h:259-274 | quotient and remainder of an index lead to its element in the segment they name |
| Columns.PutIsInvisible | src/dataframe/column.h:205-210 | a put of one column leaves everything that another column uses unchanged |
| Columns.StoredNext | src/dataframe/column.h:205-210 | storing the next segment keeps the earlier ones as long as the names fit |
| Columns.Column.StaysValid | src/dataframe/column.h:205-210 | changes to the store that spare a column's names keep the column valid |
| Placement.ComputeLocalIndices | src/dataframe/column.h:143-161 | the loop gives the indices that the specification prescribes for a node |
| Placement.SegmentEndIsRight | src/dataframe/column.h:149-156 | in a non-empty column the computed end of a segment is where the next one starts, or the size of the column |
| Placement.IndicesIncrease | src/dataframe/column.h:143-161 | the indices come in increasing order |
| Placement.RowsArePartitionedExactly | src/dataframe/column.h:143-161 | every node gets exactly the rows of its own segments, so that the nodes partition the rows, if and only if the column is not empty |
| Placement.IndicesArePermutation | src/dataframe/column.h:143-161 | for a non-empty column the indices of all nodes together are the row numbers, each once |
| Placement.LocalRowIsLocal | src/dataframe/dataframe.h:177-184 | the segment of a local row lives on the node itself, for every column of that capacity |
| Frames.Writer.Visit | src/dataframe/row.h:79-103 | after a visit the reused row holds its assignments in order over what it held before |
| Frames.RowOfVisit | src/dataframe/row.h:79-103 | in a produced row a column has the value it was given last in that visit, and one that was not set repeats the row before |
| Frames.AddToColumns | src/dataframe/row.h:122-145 | every column gains its own field of the row, and nothing else changes for other columns of the store; it fails only if a text that was added before is empty |
| Frames.FromVisitor | src/store/kdstore.h:155-184 | completes if and only if no text that the writer produces is empty; the frame then holds exactly the produced rows, in order, and columns with other names keep everything |
| Frames.EmptyTextFails | src/util/serial.h:138-148 | a writer of one row with one empty text is a script that meets all other conditions and whose frame is never built |
| Frames.NewFrame | src/dataframe/dataframe.h:30-42 | columns of equal length become a frame that holds the same rows, all of them final, if and only if no text is empty; the assertion of equal lengths holds |
| Frames.DataFrame.FillRow | src/dataframe/dataframe.h:123-148 | the row object holds row idx of the frame afterwards, and only the node that keeps its segment is asked |
| Frames.DataFrame.Map | src/dataframe/dataframe.h:191-197 | the reader visits exactly the rows of the frame, in order |
| Frames.DataFrame.LocalMap | src/dataframe/dataframe.h:177-184 | the reader visits exactly the rows whose segments are on the node, and no other node is asked for a segment |
| Frames.LocalMapsCoverMap | src/dataframe/dataframe.h:177-197 | the rows that all nodes visit with local_map are, as a multiset, the rows that map visits |
| Frames.DataFrame.Open | src/dataframe/dataframe.h:59-80 | the frame that another node opens from the image of a stored frame holds the same rows |
| FrameStore.KDStore.Put | src/store/kdstore.h:61-66 | the store maps the name to the bytes of the frame |
| FrameStore.KDStore.Get | src/store/kdstore.h:27-33 | the frame decoded from those bytes holds the rows of the stored one |
| FrameStore.StoreAndReplay | src/store/kdstore.h:155-184 | a frame built from a writer, put as bytes, got again and mapped replays exactly the rows that the writer produced; storing them fails if and only if some produced text is empty |
| Lines.LineReader.ReadLine | src/sorer/parser.h:223-284 | whatever pieces the reads return, the next line is the rest of the file up to its first newline, and no line exactly when nothing is left; it terminates |
| Lines.LineReader.Reset | src/sorer/parser.h:290-300 | after a reset the reader gives the whole file again |
| Lines.CutAtNewline | src/sorer/parser.h:223-284 | the first line of a file goes up to its first newline, and the others are those of what follows it |
| Lines.LinesAreReadBack | src/sorer/parser.h:223-284 | lines written with a newline each, and perhaps a last one without, are read back as they were, with no empty line for a final newline |
| Lines.EveryFileIsLines | src/sorer/parser.h:223-284 | every file is such a text, so that this describes all files |
| Scanner.StrLen | src/sorer/parser.h:503 | the scan of a line ends at its first NUL, or else at its end |
| Scanner.ScanUndoesPrint | src/sorer/parser.h:494-527 | scanning a print of fields with balanced quotes and only quoted closing brackets, with any text between that opens no field, gives back exactly the fields |
| Scanner.BalancedExactly | src/sorer/parser.h:494-527 | a field can stand between brackets if and only if it has an even number of quotes, and an odd number before each closing bracket |
| Scanner.UnfinishedExactly | src/sorer/parser.h:494-527 | a text completes no field if and only if each closing bracket behind its first opening one has an odd number of quotes in between |
| Scanner.EveryLineIsAPrint | src/sorer/parser.h:494-527 | every line is such a print, followed by something that completes no field |
| Scanner.StrSlice.Trim | src/sorer/parser.h:60-67 | the slice is left with its text trimmed at both ends, as TrimmedIsTheCore describes |
| Scanner.TrimmedIsTheCore | src/sorer/parser.h:60-67 | trimming cuts only the given character, and cuts it completely from both ends |
| Scanner.StrSlice.ToInt | src/sorer/parser.h:85-104 | the result is the signed number in front of the text as a 32-bit int, which NoNumberIsZero and NextDigitCounts determine for every text |
| Scanner.NoNumberIsZero | src/sorer/parser.h:85-104 | a text with at most one sign and no digit next gives 0 |
| Scanner.NextDigitCounts | src/sorer/parser.h:85-104 | each further digit, after a sign or not and after zeros or not, adds its value to ten times what is before it, modulo the 32 bits, and what follows the digits does not count |
| Scanner.EveryTextHasThatForm | src/sorer/parser.h:85-104 | every text is a sign or none, digits or none, and something that goes on with no digit |
| Scanner.DecimalsAreReadBack | src/sorer/parser.h:85-104 | a decimal number with or without a sign, followed by no digit, is read back, modulo the 32 bits |
| Scanner.ReadDigits | src/sorer/parser.h:88-98 | the digits give the decimal number in a 64-bit long that wraps around at every step |
| Ints.IntOfLong | src/sorer/parser.h:103 | an overflow of the long does not show in the int, negated or not |
| Guessing.StepIsJoin | src/sorer/parser.h:441-485 | the branches that update a guess amount to the join with the class of the field in the chain unknown, bool, integer, double, string |
| Guessing.GuessIsTheJoin | src/sorer/parser.h:441-485 | the guess after any fields is an upper bound of their classes that one of them reaches |
| Guessing.ClassByCharacters | src/sorer/parser.h:441-485 | by its characters a field that is not blank is a string if it has none of +-.0123456789, a double if it has a dot, and else a bool or an int by the number in front |
| Guessing.GuessByCharacters | src/sorer/parser.h:441-485 | a column is of strings if some field that is not blank has none of +-.0123456789, else of doubles if some field has a dot, else of ints if the number in front of some field is neither 0 nor 1, else of bools |
| Guessing.OrderDoesNotMatter | src/sorer/parser.h:441-485 | columns with the same fields in any order and number get the same type |
| Guessing.ConvertExactly | src/sorer/parser.h:395-433 | only blanks at the ends of a field are cut, and for strings the quotes inside these: a string column gets what is left if it has at most 255 characters, an int column its number, a double column its text, a bool column false for 0 and true for 1; everything else, and a blank field, fails |
| Guessing.PlainStringIsItself | src/sorer/parser.h:408-417 | a string without blanks or quotes at its ends becomes itself |
| Guessing.GuessedFieldsConvert | src/sorer/parser.h:395-433 | a field that took part in the guess converts without a failing assertion if and only if it is not blank and, in a string column, not too long: the bool assertion never fails for it |
| Parser.SorParser.GuessFieldType | src/sorer/parser.h:441-485 | the guess of the column moves as the specification says, the others stay |
| Parser.SorParser.AppendField | src/sorer/parser.h:395-433 | the column gains the converted field, or an assertion fails exactly where the specification says |
| Parser.SorParser.ScanLine | src/sorer/parser.h:494-527 | in all three modes the loop takes exactly the fields of the line up to its first NUL, each with its number, and reports the same count; being in a string implies being in a field |
| Parser.SorParser.GuessSchema | src/sorer/parser.h:533-576 | succeeds if and only if some of the first 500 lines has a field; there is then a column for each field of the longest of them, with the type its fields decide |
| Parser.SorParser.ParseFile | src/sorer/parser.h:582-599 | the tables are those of taking all lines of the file in order, up to the first failing assertion |
| Parser.RowsAreGuessed | src/sorer/parser.h:533-576 | column by column the guesses are those of the fields of that column alone |
| Parser.RowsAreConverted | src/sorer/parser.h:582-599 | for any number of lines the parse succeeds if and only if every field has a column and converts; each column then holds its converted fields line by line |
| Parser.GuessIsSoundForTheParse | src/sorer/parser.h:533-599 | for any number of lines the parse succeeds if and only if no line has more fields than the first 500, no field is blank, strings are short enough, and the lines after the first 500 have 0 or 1 in the bool columns: in the first 500 no bool assertion and no index check ever fails |
| Parser.ColumnsAreEqualExactly | src/dataframe/dataframe.h:30-34 | for any number of lines the columns then have equal lengths if and only if each line has all fields or none |
| Parser.ColumnsAreTheLines | src/sorer/parser.h:533-599 | for any file that is parsed, column j has the type that its fields in the first 500 lines give, and its elements are what that type makes of field j of each line that has one, in the order of the lines |
| Parser.ColumnsHoldTheLines | src/sorer/parser.h:582-599 | if every line has a field for the column, row i of it is the field of line i |
| Parser.LaterLineFails | src/sorer/parser.h:533-599 | the limit of 500 is real: a line after it can fail a parse of acceptable fields, shown by a file of 501 lines |
| SorFrames.FromSorFile | src/store/kdstore.h:143-153 | a file becomes a stored frame that holds the parsed rows, with the guessed types, or an assertion fails, exactly as specified: in the guess, the parse, the check of lengths, or the writing of an empty string |
| SorFrames.FrameCells | src/store/kdstore.h:143-153 | field j of row i of that frame is element i of the parsed column j: the int, the bool, what atof makes of the text, or the string byte by byte |
| SorFrames.FileBecomesRows | src/store/kdstore.h:143-153 | whatever the file is, the rows of its frame are its lines that have fields, in order, and each field is what the type of its column makes of its text |
| SorFrames.SorFileIsReadExactly | src/store/kdstore.h:143-153 | for a file of any length it succeeds if and only if some of the first 500 lines has a field, no field is blank, strings are short enough and not empty inside their quotes, each line has all fields or none, and the lines after the first 500 have 0 or 1 in the bool columns |
| SorTables.ShownConverts | src/sorer/parser.h:395-433 | a value written as a field, quoted if it is a string, is converted back to the value by its own type |
| SorTables.ClassOfShown | src/sorer/parser.h:441-485 | the class that the guess gives to each written value: a string counts as a string only without any character of a number |
| SorTables.TableIsReadBackExactly | src/store/kdstore.h:143-153 | a table of any length, written as a file, is read back value by value if and only if in its first 500 rows every int column has a value other than 0 and 1 and every string column has a string without any character of a number, and no string of the table is empty |
| SorTables.FrameOfTable | src/store/kdstore.h:143-153 | the frame of a table that decides its types has the ints, bools, doubles and string bytes of the table itself, row by row and column by column |
| SorTables.ReadTable | src/store/kdstore.h:143-153 | mapping over the frame that is made from the file of such a table shows the reader the table, and the frame has its type letters; it fails if and only if a string is empty |
| SorTables.QuotesAloneFail | src/sorer/parser.h:408-417 | the file of one line with a pair of quotes in brackets fails: its string is accepted by the parse and cannot be stored |
| Wire.SelfDelimiting | src/util/serial.h:61-267 | for every format, decoding bytes gives a datum and leaves a rest if and only if the bytes are the encoding of that datum followed by that rest |
| Wire.DecodeUndoesEncode | src/util/serial.h:61-267 | decoding an encoding followed by anything gives the datum and leaves what follows |
| Wire.EncodeUndoesDecode | src/util/serial.h:61-267 | whatever is decoded was encoded: each datum has one encoding |
| Wire.NumberRoundTrip | src/util/serial.h:116-125 | little-endian numbers of a fixed width are read back |
| Serial.Serializer.Expand | src/util/serial.h:40-59 | the search ends with the first factor, from two on, that gives more room than needed, and all earlier bytes are kept |
| Serial.Serializer.Append | src/util/serial.h:138-148 | the contents gain exactly the bytes, growing if needed |
| Serial.Serializer.AddNumber | src/util/serial.h:61-136 | the contents gain the little-endian bytes of the number |
| Serial.Serializer.AddString | src/util/serial.h:150-154 | the contents gain the length and the bytes of a non-empty text |
| Serial.Deserializer.GetNumber | src/util/serial.h:189-243 | reads and skips the number if enough bytes are left, else fails |
| Serial.Deserializer.GetString | src/util/serial.h:261-267 | reads and skips the text, and fails if it is empty or cut short |
| Layouts.NumbersAreLaidOut | src/util/serial.h:61-136 | a number of one, two, four or eight bytes has its lowest byte first |
| Layouts.ArrayIsLaidOut | src/util/array.h:245-293 | the bytes of an array are its size in eight bytes and its elements: an int as four bytes in two's complement, a double as eight, a bool as one, a text as its length and its bytes |
| Layouts.SegmentIsLaidOut | src/dataframe/column.h:205-210 | of a finalized column the store of node i modulo the nodes has, under the name of segment i, the array of the elements i times the capacity up to the next segment |
| Arrays.FieldArray.PushBack | src/util/array.h:43-47 | the array gains the element while there is room |
| Arrays.WriteFields | src/util/array.h:288-293 | writing the elements of an array of any of the four types succeeds if and only if no text is empty, and the serializer gains the size and the elements |
| Arrays.FieldArray.Serialize | src/util/array.h:135-140 | the serializer gains the bytes of the array, unless a text is empty |
| Arrays.FieldArray.Deserialize | src/util/array.h:102-109 | the array read from bytes, of any of the four types, has their elements and leaves the rest; its capacity is its size |
| Arrays.FieldsAreReadBack | src/util/array.h:245-293 | an array of ints, doubles, bools or texts that can be written, the empty array included, is read back from its bytes, leaving what follows |
| Formats.WriteSchema | src/dataframe/schema.h:88-94 | the serializer gains the bytes of the schema |
| Formats.GetSchema | src/dataframe/schema.h:44-51 | reads the schema that its bytes decode to |
| Formats.WriteKey | src/store/key.h:87-92 | the serializer gains the bytes of the key |
| Formats.GetKey | src/store/key.h:26-31 | reads the key that its bytes decode to |
| Formats.WriteColumn | src/dataframe/column.h:187-195 | the serializer gains the bytes of the column |
| Formats.GetColumn | src/dataframe/column.h:75-87 | reads the column that its bytes decode to |
| Formats.WriteFrame | src/dataframe/dataframe.h:165-170 | the serializer gains the bytes of the frame |
| Formats.GetFrame | src/dataframe/dataframe.h:59-80 | reads the frame that its bytes decode to, and fails on a type that is none of the four |
| Formats.TypesAreChecked | src/dataframe/dataframe.h:59-80 | reading a frame whose schema is read fails exactly if a type code is not one of the four letters in its low byte, or its columns are not read |
| Layouts.KeyIsLaidOut | src/store/key.h:87-92 | the bytes of a key are its name as a text and its node in eight bytes |
| Layouts.ColumnIsLaidOut | src/dataframe/column.h:187-195 | the bytes of a column are its size, its id, the number of its keys and the keys |
| Layouts.SchemaIsLaidOut | src/dataframe/schema.h:88-94 | the bytes of a schema are its width, one four-byte int for each type, and the number of rows |
| Layouts.FrameIsLaidOut | src/dataframe/dataframe.h:165-170 | the bytes of a frame are those of its schema and of its columns, without a count |
| Formats.FrameIsReadBack | src/dataframe/dataframe.h:59-80 | a frame written and read again is the same frame, and what follows is left |
| Messages.WriteMessage | src/network/message.h:61-66 | the serializer gains the bytes of the message, whatever its kind |
| Messages.GetMessage | src/network/message.h:39-344 | reads the message that its bytes decode to, and fails on an unknown kind |
| Messages.UnknownKindFails | src/network/message.h:14-54 | a kind of 8 or more is not read |
| Layouts.MessageIsLaidOut | src/network/message.h:14-344 | the bytes of a message are the number of its kind, from 0 for put to 7 for status, in four bytes, sender, target and id in eight each, and what its kind adds |
| Messages.MessageIsReadBack | src/network/message.h:39-344 | every message of the eight kinds is read back from its bytes, leaving what follows |
| Streams.Outgoing.SendBytes | src/network/network.h:123-133 | whatever pieces the socket takes, exactly the bytes are sent, in order |
| Streams.Outgoing.SendMessage | src/network/connection.h:71-79 | the length of the message and the message are sent |
| Streams.Incoming.RecvBytes | src/network/network.h:103-115 | whatever pieces arrive, the next bytes of the stream are returned, fewer only at its end |
| Streams.Incoming.RecvMessage | src/network/connection.h:87-100 | the bytes of the first message of the stream are returned and the rest is the stream of the other messages |
| Layouts.StreamIsLaidOut | src/network/connection.h:71-79 | on a stream each message follows its length in eight bytes |
| Streams.StreamIsReadBack | src/network/connection.h:71-100 | the stream of any sequence of messages, of all eight kinds, decodes to exactly that sequence |
| Streams.StreamsAreDistinct | src/network/connection.h:71-100 | different sequences of messages have different streams |
| Streams.Dispatch | src/network/connection.h:141-158 | the five kinds other than KILL, REGISTER and DIRECTORY are handled and the loop goes on, a KILL ends it, and on the other two the assertion fails |
| Streams.Run | src/network/connection.h:163-174 | the message loop handles exactly the messages that were sent, up to the first kill or the first that is rejected, and its assertion fails if and only if a REGISTER or DIRECTORY message comes before any kill |
| Streams.AllAreHandled | src/network/connection.h:141-174 | status, get, put, waitAndGet and reply messages are all handled, up to the first kill and with it, and no assertion fails |
| Streams.HandledUntilRejected | src/network/connection.h:141-174 | if a register or directory message comes first, the messages before it are handled and the assertion fails |
| Streams.HandledUpToKill | src/network/connection.h:141-174 | those are a first part of the messages without a rejected one and with a kill at most at their end; they are all, or a kill ends them, or the next one is rejected |
| Streams.SendAndReceive | src/network/connection.h:71-174 | from sender to receiver no byte is lost or shared between messages, for any pieces on either side: the same messages are handled and the same assertion fails |
| Registration.Controller.HandleRegister | src/network/network_ifc.h:155-163 | the table gains the address and the connection of the node that the message names |
| Registration.Controller.ProcessRegistrations | src/network/network_ifc.h:128-140 | the loop stops after the first registrations that fill the table, or waits for more if they never do |
| Registration.RegistrationEndsExactly | src/network/network_ifc.h:128-140 | the loop ends if and only if enough different node numbers register |
| Registration.EachNodeIsInTheTable | src/network/network_ifc.h:128-163 | if each other node registers once, in any order, the loop ends with the last of them and the table has the address that each sent |
| Registration.Controller.MakeDirectory | src/network/message.h:265-270 | the directory lists the addresses in the order of the node numbers |
| Registration.Client.HandleDirectory | src/network/network_ifc.h:204-215 | the client takes over all addresses but the controller's, after the size check |
| Registration.DirectoryCopiesTheTable | src/network/network_ifc.h:204-215 | a client that starts with the controller's address ends with the controller's table |
| Registration.RegisterAll | src/network/network_ifc.h:128-215 | for node numbers 1 to N-1 arriving in any order every client ends with the controller's full address table |

## Left out

- Sockets, poll, accept, threads, locks and busy waiting: links are FIFO queues and steps are atomic; a waiting get is a
  step that is enabled only once the key is there.
- Two connections for one pair of nodes, lost connections and the teardown after a kill: one connection per pair, no
  failures. A connection that ends inside a message is therefore not modelled.
- Line readers over a part of a file and read errors: whole files, as `fromSorFile` uses them.
- `atof` and the meaning of doubles: a stored double is an opaque number of eight bytes.
- Random column ids are assumed distinct, at most ten letters, not empty; the generator can give fewer than ten.
- The four copies of the column and array classes: one column and one array whose elements carry their type.
- Memory ownership, deletion, cloning and pointer casts; overflow of buffer sizes beyond 64 bits.
- LinusTheorems.EveryNodeSearchesNaively: of the projects and users frames only the numbers of rows matter, and a commit
  row is kept as its first two fields. Assumed are at most 2 to the 31 projects and users, so that int conversion is
  exact, a commits frame that is not empty, as `local_map` needs, and at most 1000 segments in each of the three input
  columns, so that segment names are distinct.
- LinusFailures.GetsNeverFailExactly: a get whose key is missing ends the source's run; here it is a state that the theorem
  names, and a step that is not enabled, so that statements on longer runs also cover runs in which it would have waited.
- LinusBlocking.RunsFinishExactly: says when runs block; in the same configurations a get can also fail its assertion and
  end the source's run, which `LinusFailures.GetsNeverFailExactly` says.
- SorTables.TableIsReadBackExactly: strings with a quote, a newline or a NUL have no written form in a file.
- Scanner.ReadDigits: overflow of a signed long is undefined in C++; it is modelled as wrapping around in two's
  complement. The int result does not depend on it.
- Registration.RegisterAll: clients are handled one after the other and registration messages arrive whole.
- Streams.Run: handling is recorded as the sequence of messages; what the store messages do is in KvNodes and Protocol.
- SorFrames.FromSorFile: the parsed values are collected first and pushed into the stored columns after the check of
  equal lengths, while the source pushes them as it parses; the moment of a failure and the order of the puts are not
  modelled. Doubles are what a given `atof` makes of their text.
- Frames.FromVisitor: a slot that was never set when its row is added is excluded, as the source leaves its value undefined.
- Formats.FrameIsReadBack: texts are bytes below 256 and not empty, as the source's assertion on empty buffers demands.
- Schema.add_row, status printing, application start-up and command lines add nothing that is hard.
