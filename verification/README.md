# Proofs about the treestore format, the FTP engine, the dynamic array and the list widget

This project models four parts of a small two-pane FTP client written in C and
proves what they promise.

- **The treestore text format** (`src/ts_text.c`, `src/treestor.c`). A hand-written
  lexer with one character of pushback, a mutually recursive parser and a recursive
  printer. Modules `TsTree`, `TsNumber`, `TsLexer`, `TsParser`, `TsPrinter`, `TsView`,
  `TsRoundTrip`, `TsExact`, `TsResave`, `TsLayout`, `TsGrammar`, `TsOutline`, `TsLookup`,
  `TsCopy`, `TsForest`, `TsLinks`, `TsLevels`. Main results: a text is loaded as a tree
  exactly if it starts with a sentence of the grammar that means it
  (`TsGrammar.LoadExact`); a tree comes back from its saved text exactly when the
  format can express it (`TsExact.LoadAfterSave`); a loaded tree can be saved and
  loaded again exactly when it holds no vector (`TsResave.ResaveExact`); layout never
  matters (`TsLayout.LayoutIndependent`); saved text is indented by depth
  (`TsOutline.TextIsLaid`); a path finds exactly what a chain of first-named children
  leads to (`TsLookup.LookupExact`), before saving and after loading alike; child lists stay well formed in every run
  of additions and removals (`TsLinks.Run`) and free of cycles where no node is put
  under itself (`TsLevels.RunTree`); copies are deep and exact
  (`TsCopy.DeepCopy`).
- **The FTP client engine** (`src/ftp.c`). A state machine with an operation queue, a
  busy counter, installed callbacks and a wait for the PASV reply in the middle of an
  operation. `FtpQueue`, `FtpReply`, `FtpSteps`, `FtpInvariant`, `FtpOverlap`, `FtpLaws`,
  `FtpLogin`, `FtpJam`, `FtpMishap`, `FtpEngine`: in every run against a well-behaved server `busy` is the
  number of unanswered commands plus running data operations, handlers that cannot tell
  replies apart hear about one command only, no response line is handled inside another,
  and operations start in the order they were submitted (`FtpOverlap.EveryRun`). An
  operation can start inside another one's wait exactly if something is queued when
  that one needs a passive data connection (`FtpOverlap.OverlapExact`). A reply can then
  meet another command's handler exactly if the waiting operation is LIST or a download
  and the queued one sends a command with another handler (`FtpOverlap.MishearExact`),
  and two transfers can come to share a data connection exactly if both are LIST or a
  download (`FtpOverlap.JamExact`); the client never gets on again, whatever happens,
  exactly if more data operations are running than can end (`FtpJam.JammedForGood`). A
  transfer command goes out exactly if its data connection is open or gets opened
  (`FtpLaws.TransferGoesOut`), and a plain session ends with the first listing received
  and nothing left over (`FtpLogin.FirstListing`).
  `FtpFraming`: control replies are cut into lines rightly if and only if every received
  chunk holds a line feed. `FtpListing`, `FtpColumns`, `FtpDirectory`: a directory
  listing received in any chunks becomes the sorted entries of its lines. `FtpAddress`:
  PORT and PASV endpoints (section 4.1.2 of RFC 959).
- **The dynamic array** (`src/darray.c`, `src/darray.h`). Module `Darray`: it refines
  a plain sequence, any run of `k` pushes and pops from empty costs at most `4k`, and
  its room stays within three times its elements and two.
- **The list widget** (`src/tui_list.c`). Module `TuiList`: over every run of any moves
  the list stays safe to draw and to add to exactly if it is cleared with its window at
  the top only; where each key takes the cursor, with as little scrolling as possible;
  cursor, window and selection count over runs of allowed moves, and exact conditions for
  the moves that break them.

`Base.dfy` holds character classes, decimal numerals, ended lines and sequence lemmas.

## How the model is set up

- Text is `string`; a C string ends before its first zero (`Ctype.CString`). The bytes
  of a file are read through `TsLexer.Reader`, whose `GetC` and `UngetC` stand for
  `fgetc` and `ungetc`.
- Numbers of the treestore are real numbers. `%g` is modelled where it prints the
  number exactly and without an exponent: at most six significant digits, zero or at
  least 0.0001 in size (`TsNumber.GExact`).
- The parser, the printer and the array macros are methods that follow the C loops.
  Each is proved equal to a function (`ParseArray`, `NodeText`, `StepShape`, ...), and
  the theorems are about those functions.
- The engine is a class whose methods follow the code (`FtpEngine.Ftp`). Each is proved
  to do to the state exactly what the function of its name in `FtpSteps` says, and the
  theorems (`FtpInvariant`, `FtpOverlap`, `FtpLaws`) are about those functions. Everything that
  others decide is an argument (`FtpSteps.Input`): which response lines arrive, what
  they say, whether `connect`, `accept` and the listening socket work, what the user
  and the completion callback submit, and what happens during a wait. This holds as well
  for an operation that is started while a response line or a read is handled
  (`Line.meets`, `Packet.meets`): if it waited, any lines could wake it. A theorem for
  all inputs is a theorem for every environment.
- What a well-behaved server is, is written down in `FtpSteps.Legal`, `HandleData` and
  `Step`; what it would not do is skipped: the control connection stays open, every
  command gets one final reply, preliminary replies come for LIST and RETR only, a data
  connection ends only after a transfer command was sent for it, and nothing is submitted
  before the greeting is handled. Any other final reply than 200 that the handler of PORT
  hears, to PORT or to a TYPE behind it, makes the client close the control connection
  (`src/ftp.c:769-771`), so such a reply is skipped too, a refused TYPE included.
- Transfers are numbered, and the handlers of a transfer know its number, as the source's
  know its address (`src/ftp.c:740`).
- The history of a run is part of its state (`FtpSteps.Past`): commands sent and
  answered, operations submitted and started, whether one was started inside a wait,
  final replies that met another handler than their command's own
  (`FtpSteps.OwnHandler`), ends of data that met another one than that of the command
  they belong to, transfers whose completion callback was called, whether
  `handle_control` was entered during a response line, and whether `busy` was negative
  where the code asserts that it is not. `Client.carried` holds the transfer commands
  sent while the present data connection was open; its end belongs to the oldest.
- `ftp_waitresp` ends after the first handled event or without one: it clears the last
  response to -1 before handling, so its loop never goes round after an event.

## Where the code departs from what its documentation or callers expect

- `src/treestor.h:25` says that `vec_size` equals `array_size`; `ts_set_value_arr`
  never sets it (`src/treestor.c:360-369`). A loaded vector is therefore printed as
  `[]`, which cannot be read back, and a copy drops it. `TsExact.ReloadedVectorsAgree`,
  `TsResave.ResaveExact` and `TsTree.CopyIsExact` give the exact conditions,
  `TsResave.PairIsLost` a tree that is lost.
- `handle_control` throws away a received chunk without a line feed together with what
  it had kept (`src/ftp.c:497-502`); `FtpFraming.FramingExact` is the exact condition.
- `parse_dirent` looks for a carriage return first, however far away
  (`src/ftp.c:893`). In a listing that ends some lines by a line feed alone and later ones
  with a carriage return, the name of such a line runs on over the following ones, and a
  line without a name gets one. `FtpColumns.ReturnBehindLine` is the exact condition;
  lines that all end alike are read rightly (`FtpListing.EntriesOfListing`).
- While a data operation waits for its PASV reply, `busy` can drop to zero and the next
  queued operation starts inside the wait (`src/ftp.c:432-436`, `src/ftp.c:671-673`).
  `FtpOverlap.WaitOverlaps` and `OverlapExact` say exactly when, `EveryRun` what holds
  all the same and what holds of runs without it. `MishearExact` and `JamExact` say
  exactly when a reply can then meet another command's handler and when two transfers
  can share a data connection; `FtpMishap.RunThatOverlaps` is a run from login for each
  operation that a user may submit behind LIST.
- Two transfers on one data connection count twice in `busy` and end once, so `busy` never
  comes back to zero and nothing is started again (`FtpJam.JammedForGood`).
- TYPE installs no handler, so its reply is heard by the one left from before. If that is
  one of a download and TYPE is refused, the completion callback of that download is
  called once more (`src/ftp.c:1013-1016`); `FtpOverlap.ErrorCompletes` says that this is
  exactly when an error completes a transfer other than its own, overlaps aside.
- `tui_clear_list` keeps `cur`, `view_offs` and `num_sel`; `tui_list_cur_start` on an
  empty list and moving down after a negative target break the window, but of these only
  the clear makes drawing unsafe (`TuiList.MoveAndDraw`, `RunDraws`).
  `TuiList.ClearAndWindow`, `ClearThenAdds`, `ClearAndCount`, `StartNeedsEntry` and
  `NegativeTargetThenNext` say exactly when, `DrawsPastEnd` shows a list whose drawing
  reads past its end, and `RefillRestores` how the caller repairs it.
- `ts_add_child` does not look whether the node is put under itself or a descendant.
  `TsLevels.MoveKeepsAcyclic` and `RunAcyclicExact` say that this is exactly when it
  makes a cycle, and `TwoNodeCycle` makes one.
- Emptying a child list leaves the tail pointing at the scratch node of
  `ts_remove_child` (`src/treestor.c:618-620`); `TsForest.ListOk` therefore says nothing
  about the tail of an empty list.

## Model

| member | source | states |
|---|---|---|
| TsLexer.Lex | src/ts_text.c:213-265 | every token except the end of the text uses up at least one character in spite of the pushback: the measure on which the recursion of nodes, values and arrays terminates |
| TsLexer.Reader.SkipComment | src/ts_text.c:221-224 | reads up to the first line feed, or to the end of the text |
| TsLexer.Reader.SkipSpace | src/ts_text.c:219-228 | reads past every mix of white space and comments and stops on the first other character |
| TsLexer.Reader.ScanNumber | src/ts_text.c:232-242 | takes the longest run of digits with at most one dot and puts the next character back |
| TsLexer.Reader.ScanId | src/ts_text.c:243-250 | takes the longest run of letters, digits and underscores and puts the next character back |
| TsLexer.Reader.ScanString | src/ts_text.c:251-263 | takes everything before the next quote and the quote, or reports that there is none |
| TsLexer.Reader.NextToken | src/ts_text.c:213-265 | returns the first token of the text that is left and leaves the text behind it |
| TsLexer.Reader.TokenFrom | src/ts_text.c:230-264 | the same for a token whose first character is read |
| TsParser.SetValueArr | src/treestor.c:335-374 | fails below two elements; else a vector if all are numbers, an array if not, with deep copies of the elements and the vector size still zero |
| TsParser.ReadValue | src/ts_text.c:74-99 | terminates on every input and reads the value that the token and the text behind it stand for, which `TsGrammar` describes independently; an unexpected symbol leaves the initial value |
| TsParser.ReadArray | src/ts_text.c:173-211 | terminates on every input and reads elements up to the end symbol or the end of the text, keeping 31; fails on other separators and below two elements |
| TsParser.ReadNode | src/ts_text.c:101-171 | terminates on every input and reads attributes and children in order up to the closing brace |
| TsParser.TextLoad | src/ts_text.c:43-72 | loads the named node at the front of the text, or fails, as the specification of the format says |
| TsPrinter.Writer.PrintVector | src/ts_text.c:307-317 | prints the first `vec_size` numbers, separated by comma and space |
| TsPrinter.Writer.PrintElems | src/ts_text.c:319-328 | prints all elements, separated by comma and space |
| TsPrinter.Writer.PrintValue | src/ts_text.c:298-333 | appends the text of the value |
| TsPrinter.Writer.PrintAttr | src/ts_text.c:291-296 | appends one indented attribute line |
| TsPrinter.Writer.TextSave | src/ts_text.c:267-289 | appends the text of the whole tree, attributes before children, each level one tab deeper up to 16 |
| TsNumber.AtofOfFormatG | src/ts_text.c:303-305 | the printed form of an exactly printable number is one number token, and reading it gives the number back |
| TsNumber.FixedTextValue | src/ts_text.c:303-305 | digits with a decimal point are read as the number they were made from |
| TsNumber.AtofOfDecimal | src/ts_text.c:77-79 | a sign and digits before and behind a dot are read as the number they show, either side of the dot may be missing |
| TsRoundTrip.LexIndent | src/ts_text.c:341-346 | indentation of any depth, capped at 16 tabs, is skipped by the lexer |
| TsRoundTrip.ValueReadBack | src/ts_text.c:298-333 | the printed text of a value of any nesting depth is read back as the value, up to exactly its end |
| TsRoundTrip.ElemsReadBack | src/ts_text.c:319-328 | the printed elements of an array are read back behind the elements already read |
| TsRoundTrip.AttrsReadBack | src/ts_text.c:291-296 | printed attributes are read back in order |
| TsRoundTrip.BodyReadBack | src/ts_text.c:101-171 | the printed body of a node is read back with its attributes and children in order |
| TsRoundTrip.ChildrenReadBack | src/ts_text.c:267-289 | printed children are read back in order |
| TsRoundTrip.ReloadedNodeView | src/ts_text.c:43-211 | the tree that loading builds looks like the saved tree, vectors seen through their array |
| TsRoundTrip.LoadOfSaved | src/ts_text.c:43-346 | which structure loading a saved tree builds, and that reading stops behind its closing brace |
| TsExact.LoadedIsLoadable | src/ts_text.c:43-265 | whatever text is loaded, names are identifiers, strings hold no quote, arrays have 2 to 31 elements and all-number arrays are vectors |
| TsExact.LoadAfterSave | src/ts_text.c:43-346 | a tree comes back from its saved text, at any indentation and with anything behind it, if and only if the format can express it; then reading stops behind the closing brace |
| TsExact.SaveThenLoad | src/ts_text.c:43-346 | the same for the printing and the reading procedures run one after the other |
| TsExact.ReloadedVectorsAgree | src/treestor.c:335-374 | a loaded value keeps the header's promise about vector sizes if and only if it contains no vector, copied or not |
| TsResave.BalanceAppend | src/ts_text.c:173-211 | brackets that can still close something, counted over two stretches of tokens |
| TsResave.ArrayReach | src/ts_text.c:173-211 | an array that is read ends inside its bracketed tokens and has closed one bracket more than it opened, not counting brackets read as values |
| TsResave.ValueFalls | src/ts_text.c:298-333 | no front part of a printed value closes more than it opens, and a vector printed as `[]` leaves the whole one bracket short |
| TsResave.AttrFails | src/ts_text.c:120-141 | an attribute with an unrecorded vector anywhere inside is printed as text that cannot be read |
| TsResave.ResaveExact | src/ts_text.c:43-346 | whatever text a tree was loaded from, saving it and loading again gives the same tree if it holds no vector, and fails if it does |
| TsResave.TwoRounds | src/ts_text.c:43-346 | an expressible tree survives two rounds of saving and loading if and only if it holds no vector |
| TsResave.PairIsLost | src/treestor.c:360-369 | a tree with the one attribute `[1, 2]` that survives one round and not two |
| TsLayout.SameTokensLoadAlike | src/ts_text.c:43-211 | texts with the same tokens both fail to load, or load the same tree and leave the same tokens |
| TsLayout.BlankMakesNoToken | src/ts_text.c:219-228 | white space and ended comments in front of a text add no token |
| TsLayout.TokensOfPieces | src/ts_text.c:213-265 | with a blank or a comment between them, two pieces of text have the tokens of each |
| TsLayout.LayoutIndependent | src/ts_text.c:213-265 | any two layouts of the same pieces, with white space and ended comments of any kind between them, have the same tokens and load alike |
| TsGrammar.LexExact | src/ts_text.c:213-265 | the first token of any text is the longest of its kind behind the blanks, with exactly the text behind it left; an unclosed quote is the end of the text |
| TsGrammar.CommentSkipped | src/ts_text.c:221-224 | a comment ends with its line, and one without an end ends the text |
| TsGrammar.WordWithUnderscore | src/ts_text.c:243-250 | letters, digits and underscores behind a letter make one word |
| TsGrammar.SyntaxParses | src/ts_text.c:74-99 | a value spelled at the front of a text is read as what it means, up to its end: numbers, words quoted or not, single symbols, lists in brackets or braces with their first 31 elements |
| TsGrammar.ElemsParse | src/ts_text.c:173-211 | the elements of a list are added to those read, and the symbol behind them decides whether it ends, goes on or fails |
| TsGrammar.UnfinishedList | src/ts_text.c:180 | a list that the end of the text cuts off behind a comma keeps its elements |
| TsGrammar.ItemsParse | src/ts_text.c:101-171 | the items of a body become attributes and children in order |
| TsGrammar.ValueHasSyntax | src/ts_text.c:74-99 | every value that is read, with text behind it, is spelled there by the grammar |
| TsGrammar.BodyHasSyntax | src/ts_text.c:101-171 | every body that is read is spelled there, item by item |
| TsGrammar.LoadExact | src/ts_text.c:43-211 | for every text, tree and rest: the text is loaded as the tree, with the rest left, if and only if it starts with a sentence that means the tree |
| TsGrammar.FormsLoadAlike | src/ts_text.c:81-95 | words without quotes load as in quotes, and lists in braces as in brackets, anywhere in a node |
| TsGrammar.UnquotedWord | src/ts_text.c:92-95 | in particular a word reads as the same word in quotes, whatever follows |
| TsGrammar.UnquotedAttr | src/ts_text.c:92-95 | a node with an unquoted attribute loads with that word as its value |
| TsOutline.TextIsLaid | src/ts_text.c:267-346 | saved text is the rows of the tree, each behind as many tabs as there are braces open around it, at most sixteen |
| TsOutline.ElemsJoined | src/ts_text.c:319-328 | the elements of an array are printed with a comma and a space between them |
| TsOutline.NumsJoined | src/ts_text.c:307-317 | so are the numbers of a vector |
| TsOutline.NoZerosBehind | src/ts_text.c:303-305 | no zeros are printed behind the last decimal that counts |
| TsLookup.JoinOfSplit | src/treestor.c:667-680 | the components of a path joined by dots are the path |
| TsLookup.GetChild | src/treestor.c:626-636 | returns the first child of that name, and nothing exactly if there is none |
| TsLookup.GetAttr | src/treestor.c:530-540 | returns the first attribute of that name, and nothing exactly if there is none |
| TsLookup.PathTok | src/treestor.c:667-680 | cuts off the first component and says whether another follows |
| TsLookup.LookupExact | src/treestor.c:682-696 | the same of the specification: found is exactly what such a chain of nodes leads to |
| TsLookup.TsLookup | src/treestor.c:682-696 | returns an attribute if and only if the path names the root, its further components lead down along first children of their names, and the attribute is the first of the last name; for every path |
| TsLookup.DescendByView | src/treestor.c:682-696 | lookups in trees that look alike find alike |
| TsLookup.LookupAfterReload | src/treestor.c:682-696 | every lookup gives the same answer before saving and after loading |
| TsTree.CopyIsExact | src/treestor.c:50-96 | a copy equals its source if and only if every vector in it is recorded at its full size |
| TsTree.CopiedNumbers | src/treestor.c:68-73 | a copy has the first numbers of the vector, as many as the recorded size says if there are so many, and else none |
| TsTree.CopyTwice | src/treestor.c:50-96 | copying a copy loses nothing more |
| TsCopy.TsValue.CopyFrom | src/treestor.c:50-96 | copies a value of any depth into storage that is all new and leaves the source as it was |
| TsCopy.TsValue.CopyElems | src/treestor.c:74-83 | every element is copied in order into storage of its own |
| TsCopy.CopyText | src/treestor.c:62-67 | a string gets new storage up to its first zero, a missing string stays missing |
| TsCopy.CopyVector | src/treestor.c:68-73 | as many numbers as the recorded size says get new storage, none if it is zero |
| TsCopy.DeepCopy | src/treestor.c:50-96 | a copy shares no storage with its source and equals it if and only if the vector sizes match throughout |
| TsForest.OnceInOneList | src/treestor.c:587-624 | a node with a parent is once in that parent's list and in no other |
| TsForest.UnlinkKeepsForest | src/treestor.c:604-624 | taking a child out keeps the lists of all nodes |
| TsForest.LinkKeepsForest | src/treestor.c:587-602 | linking a node without a parent in as the last child keeps the lists of all nodes |
| TsLinks.LooseNodes | src/treestor.c:471-498 | nodes as they are allocated are well linked |
| TsLinks.FindBefore | src/treestor.c:606-614 | finds the predecessor of the child, the scratch node for the first one, or the end of the list if the node is no child |
| TsLinks.RemoveChild | src/treestor.c:604-624 | removes just that child from the list of its parent, or returns -1 and changes nothing if it is no child of the node |
| TsLinks.AddChild | src/treestor.c:587-602 | under a new parent the node leaves its old list and becomes the last child; under its own parent nothing moves |
| TsLinks.Run | src/treestor.c:587-624 | in every run of additions and removals each node with a parent is exactly once in that parent's list, and the tail of a non-empty list is its last child |
| TsLinks.Perform | src/treestor.c:587-624 | one addition or removal keeps all lists and changes the parent of that node only |
| TsLevels.BelowIsDeeper | src/ts_text.c:335-339 | going up `k` parents goes up `k` levels |
| TsLevels.MoveKeepsAcyclic | src/treestor.c:587-602 | moving a node makes a cycle of parents if and only if its new parent is the node itself or below it |
| TsLevels.RunAcyclicExact | src/treestor.c:587-624 | a run is free of cycles after every change if and only if it never puts a node under itself or a descendant |
| TsLevels.RunTree | src/treestor.c:587-624 | any run on the pointers: lists stay sound, parents are as computed, and there is no cycle throughout exactly if the run was allowed |
| TsLevels.RunFromLoose | src/treestor.c:587-624 | the same from newly allocated nodes |
| TsLevels.TwoNodeCycle | src/treestor.c:587-602 | two nodes, each put under the other: both calls succeed, the lists stay sound and the parents go round |
| TsLevels.TreeLevel | src/ts_text.c:335-339 | the recursion over parents terminates and gives the level that every child has one more of |
| TsLevels.ChildOneDeeper | src/ts_text.c:335-339 | a listed child is one level below its node, which is the level the printer passes on |
| Darray.StepAmortised | src/darray.c:69-114 | a push or pop pays for its copying from the potential and four units of work |
| Darray.RunAmortised | src/darray.c:69-114 | the same over any run from any state |
| Darray.AmortisedFromEmpty | src/darray.c:69-114 | any `k` pushes and pops from empty copy or write at most `4k` elements |
| Darray.RunStaysTight | src/darray.c:69-114 | over any run of pushes and pops the capacity stays within three times the elements and two |
| Darray.PushesDouble | src/darray.c:69-91 | pushing onto a new array keeps its capacity the least power of two that is enough |
| Darray.DArray.constructor | src/darray.c:18-27 | an array of the requested length, exactly full |
| Darray.DArray.Reallocate | src/darray.c:36-46 | keeps the elements that fit both capacities |
| Darray.DArray.Resize | src/darray.c:36-50 | length and capacity become the request, and the elements that fit are kept |
| Darray.DArray.Empty | src/darray.c:52-55 | says whether there is no element |
| Darray.DArray.Size | src/darray.c:57-60 | returns the number of elements |
| Darray.DArray.Clear | src/darray.c:63-66 | no element and no capacity are left |
| Darray.DArray.Push | src/darray.c:69-91 | appends the item, or an element of any content if there is none, doubling a full array, and does the work the cost function says |
| Darray.DArray.Pop | src/darray.c:93-114 | removes the last element if there is one; halving the capacity never cuts a live element |
| Darray.Run | src/darray.c:18-114 | every run of pushes, pops, resizes and clears is a run of the plain sequence model |
| Darray.RunFromEmpty | src/darray.c:18-114 | the work counted by the array itself over a run from empty is at most four units for each operation, and the room at its end is bounded by its elements |
| Darray.StrPush | src/darray.h:31-37 | appends a character to the text and keeps one final zero |
| Darray.StrPop | src/darray.h:39-45 | drops the last character of the text and keeps one final zero |
| TuiList.RowsFit | src/tui_list.c:279-287 | the draw loop reads only valid rows if and only if the window does not start past the last full page |
| TuiList.MoveKeepsWindow | src/tui_list.c:84-195 | every allowed move keeps the cursor in the window and the drawn rows valid |
| TuiList.RunKeeps | src/tui_list.c:63-211 | the same, and the selection count, over every run of adds, moves and toggles |
| TuiList.RefillRestores | src/tui_list.c:48-121 | clear, then at least one add, then a move to row 0 restores the window from any good state |
| TuiList.RunFromFresh | src/tui_list.c:13-37 | window and count over every allowed run on a new list |
| TuiList.DrawableExact | src/tui_list.c:279-287 | a list is drawable if and only if drawing is safe now and after one more entry |
| TuiList.MoveAndDraw | src/tui_list.c:48-211 | every move of any kind keeps a list drawable, except a clear with the window below the top |
| TuiList.RunDraws | src/tui_list.c:48-211 | over any run of any moves the list is drawable throughout if and only if it is cleared with the window at the top only |
| TuiList.FreshDraws | src/tui_list.c:13-37 | a new list that is never cleared draws safely after every move, negative targets and moves on the empty list included |
| TuiList.NextGoesDown | src/tui_list.c:130-150 | one row down if there is one, to the nearest window that shows it |
| TuiList.PrevGoesUp | src/tui_list.c:152-166 | one row up if there is one, to the nearest window that shows it |
| TuiList.SetCurGoesTo | src/tui_list.c:86-121 | to the given row; a window that shows it stays, and else half a window of rows is put above it as far as the list allows |
| TuiList.EndGoesLast | src/tui_list.c:180-195 | to the last row, in a window that ends with the list |
| TuiList.DownTimes | src/tui_list.c:130-150 | `k` times down ends `k` rows further down or on the last row |
| TuiList.UpTimes | src/tui_list.c:152-166 | `k` times up ends `k` rows further up or on the first row |
| TuiList.UpAfterDown | src/tui_list.c:130-166 | up undoes down for the cursor, and for the window if and only if it did not scroll or shows one row |
| TuiList.DownAfterUp | src/tui_list.c:130-166 | down undoes up in the same way |
| TuiList.AddsAppend | src/tui_list.c:63-75 | added texts are the last rows in order, not selected, and nothing else moves |
| TuiList.RunCovers | src/tui_list.c:197-211 | over every run, clears included, `num_sel` is never below the number of selected rows |
| TuiList.CountNotNegative | src/tui_list.c:204-208 | no move takes `num_sel` below zero |
| TuiList.ClearAndWindow | src/tui_list.c:48-61 | clearing keeps the window if and only if there was no cursor |
| TuiList.ClearThenAdds | src/tui_list.c:48-75 | after clear and adds the draw loop is safe if and only if the stale window still fits, and the window right if and only if the stale cursor fits too |
| TuiList.DrawsPastEnd | src/tui_list.c:279-287 | a list cleared on its fifth entry and given one entry draws its fourth |
| TuiList.SelectedExact | src/tui_list.c:229-245 | the listed rows are exactly the selected ones, each once, in increasing order |
| TuiList.ToggleCounts | src/tui_list.c:197-211 | a toggle changes the number of selected rows by one, up or down |
| TuiList.MoveKeepsCount | src/tui_list.c:63-211 | every move between clears keeps `num_sel` equal to the number of selected rows |
| TuiList.NegativeTargetThenNext | src/tui_list.c:86-150 | dropping the cursor and moving down keeps the window if and only if it was at the top |
| TuiList.StartNeedsEntry | src/tui_list.c:168-178 | a move to the start keeps the window if and only if there is an entry |
| TuiList.ClearAndCount | src/tui_list.c:48-61 | the count survives a clear if and only if nothing was selected |
| TuiList.ListWidget.constructor | src/tui_list.c:13-37 | an empty list without a cursor |
| TuiList.ListWidget.ClearList | src/tui_list.c:48-61 | drops the entries and leaves cursor, window and count stale |
| TuiList.ListWidget.AddItem | src/tui_list.c:63-75 | appends an unselected entry |
| TuiList.ListWidget.SetCurrent | src/tui_list.c:86-121 | moves the cursor and, if the row is outside the window, centres the window within the list |
| TuiList.ListWidget.CursorNext | src/tui_list.c:130-150 | moves down exactly one row if one follows, with the nearest window that shows it, or reports the end and changes nothing |
| TuiList.ListWidget.CursorPrev | src/tui_list.c:152-166 | moves up exactly one row if there is one, with the nearest window that shows it, or reports the start and changes nothing |
| TuiList.ListWidget.CursorStart | src/tui_list.c:168-178 | puts cursor and window at row 0, entry or not |
| TuiList.ListWidget.CursorEnd | src/tui_list.c:180-195 | puts the cursor on the last row and the window on the last page |
| TuiList.ListWidget.ToggleSel | src/tui_list.c:197-211 | flips one entry and counts it |
| TuiList.ListWidget.GetSel | src/tui_list.c:229-245 | writes the selected rows in increasing order as far as there is room, touches nothing else, and returns the count |
| TuiList.ListWidget.DrawnIndices | src/tui_list.c:279-287 | the rows drawn are consecutive from the window's start, whatever state the list is in; they are valid exactly if drawing is safe, and include a cursor that is in the window |
| TuiList.ListWidget.Move | src/tui_list.c:48-211 | each procedure makes the move of its name |
| TuiList.ListWidget.Perform | src/tui_list.c:48-211 | any run of moves on the widget itself stays drawable if cleared at the top only; allowed moves keep window and count as well |
| FtpAddress.OrTestExact | src/ftp.c:799 | the or of six numbers is below 256 if and only if each of them is |
| FtpAddress.DecodeOfEncode | src/ftp.c:386-391 | decoding the six numbers of a PORT command gives back every 32-bit address and 16-bit port |
| FtpAddress.EncodeOfDecode | src/ftp.c:799-805 | a tuple is accepted if and only if all parts are below 256, and encoding the endpoint gives the tuple back |
| FtpAddress.ParsePasv | src/ftp.c:791-805 | finds the first place where six numbers can be read and decodes them, or refuses |
| FtpAddress.ScanRendered | src/ftp.c:791-798 | six rendered numbers are scanned as themselves whatever non-digit follows |
| FtpAddress.ScanSigned | src/ftp.c:793-794 | a signed numeral is read by `%u` with wrap-around for a minus |
| FtpAddress.ScanBehindBlanks | src/ftp.c:793-794 | blanks in front of a numeral are skipped, and one too wide saturates |
| FtpAddress.FindBehindBlock | src/ftp.c:791-798 | a text that ends in a character no scan can pass decides the search by itself if a tuple can be read in it, and otherwise does not take part in it |
| FtpAddress.FindRendered | src/ftp.c:791-798 | behind any text that ends in a character no scan can pass (a letter, a bracket), and then any text in which no number runs up to a comma, the search finds a rendered tuple, or else the tuple that the text in front holds |
| FtpAddress.ReplyDecodes | src/ftp.c:791-805 | such a reply is accepted if and only if all parts are below 256, and names exactly that endpoint, unless a tuple in front of it decides |
| FtpAddress.EndpointRoundTrip | src/ftp.c:386-391 | the endpoint rendered as in PORT is the one read from a PASV reply that shows it and none in front of it |
| FtpAddress.PortReadsBack | src/ftp.c:386-391 | the PORT command that is sent carries the endpoint: the six numbers in it read back as it |
| FtpFraming.LinesPartition | src/ftp.c:463-505 | lines and unfinished tail put back together are the stream |
| FtpFraming.ChunkExact | src/ftp.c:489-502 | one more chunk keeps lines and tail right if and only if it contains a line feed |
| FtpFraming.FramingExact | src/ftp.c:463-505 | for every cutting into chunks, lines and kept bytes are right throughout if and only if every chunk contains a line feed |
| FtpFraming.LinesAreDue | src/ftp.c:488-496 | of a stream of lines that all end alike exactly the lines are due, without their carriage returns |
| FtpFraming.Control.ScanByte | src/ftp.c:489-495 | one byte joins the line, becomes a zero, or ends the line and hands it over |
| FtpFraming.Control.ScanChunk | src/ftp.c:488-496 | hands over the finished lines of the buffer in order and finds where the unfinished one starts |
| FtpFraming.Control.Receive | src/ftp.c:468-503 | one received chunk changes lines and kept bytes as the specification of a chunk says, in place |
| FtpFraming.Control.HandleControl | src/ftp.c:463-505 | all reads of one call together, for any chunks that fit the free room |
| FtpListing.LineParses | src/ftp.c:887-938 | a line inside the received bytes parses as it does by itself, ended by CRLF, or by a line feed alone if no carriage return follows |
| FtpListing.EntriesOfListing | src/ftp.c:963-969 | the collected entries of a listing whose lines end alike, by CRLF or by line feeds alone, are those of its lines, blank lines or not |
| FtpListing.ZeroInLine | src/ftp.c:893-895 | bytes with a zero before the end of the line give no entry |
| FtpColumns.NinthField | src/ftp.c:887-938 | a line gives an entry if and only if it has a ninth field that does not start with an arrow, leading blanks counting as an empty first field; kind from the first character, name from the ninth field, size from the fifth |
| FtpColumns.EntryOfRow | src/ftp.c:887-938 | eight columns and a name give a directory or a file of that name; a numeral in the fifth column is the size |
| FtpColumns.EntryOfLink | src/ftp.c:919-928 | the name of a link ends before its arrow and the blanks in front of it |
| FtpColumns.SizeOfSigned | src/ftp.c:909 | a sign in front of the size counts |
| FtpColumns.TooFewColumns | src/ftp.c:916 | in particular at most eight fields give no entry, with blanks in front and behind or without |
| FtpColumns.ReturnBehindLine | src/ftp.c:893-930 | a line ended by a line feed alone, with a carriage return in a later line and no link arrow up to it, gives its own entry if and only if its ninth field has a link arrow |
| FtpDirectory.NameCmpMeaning | src/ftp.c:944-946 | comparing names is the dictionary order on their characters |
| FtpDirectory.CmpIsOrder | src/ftp.c:940-948 | the comparison is a total order on kind and name |
| FtpDirectory.SortedMeaning | src/ftp.c:940-948 | sorted means directories first and names in order within each kind |
| FtpDirectory.SortUnique | src/ftp.c:976-977 | any two sorted arrangements of the same entries show the same kinds and names |
| FtpDirectory.SkipField | src/ftp.c:881-885 | moves past one field and the blanks behind it, never past a line feed |
| FtpDirectory.CutName | src/ftp.c:919-928 | finds where the name ends |
| FtpDirectory.ParseDirent | src/ftp.c:887-938 | parses one line from the bytes that start with it |
| FtpDirectory.ListReceiver.Data | src/ftp.c:983-996 | appends a chunk of at most 256 bytes; one doubling always makes room |
| FtpDirectory.ListReceiver.Finish | src/ftp.c:955-977 | the directory becomes the sorted entries of all received bytes |
| FtpDirectory.Collect | src/ftp.c:963-969 | collects one entry for each line that has one, in order |
| FtpDirectory.ReceiveListing | src/ftp.c:950-997 | the same over a whole transfer in any chunks |
| FtpDirectory.DirectoryDependsOnLinesOnly | src/ftp.c:950-997 | however the listing is cut, its lines ended by CRLF or by line feeds alone, and however equal keys are sorted, the directory shows the lines with a ninth field, sorted |
| FtpQueue.OpQueue.Append | src/ftp.c:262-270 | adds at the end of the queue |
| FtpQueue.OpQueue.TakeHead | src/ftp.c:222-230 | removes and returns the first of the queue |
| FtpQueue.OpQueue.Empty | src/ftp.c:243 | says whether nothing is queued |
| FtpReply.RespCodeExact | src/ftp.c:541-554 | a line has a code if and only if it shows three digits and white space; with a dash it is a continuation |
| FtpReply.LineCodeBehindBlanks | src/ftp.c:561-568 | blanks in front of a line do not change its code |
| FtpReply.QuotedIsFound | src/ftp.c:748-765 | the quoted text is what stands between the first two quotes |
| FtpReply.QuotedExact | src/ftp.c:748-765 | a line is refused if and only if it holds fewer than two quotes |
| FtpInvariant.ExecKeeps | src/ftp.c:166-216 | an operation that may start keeps all invariants, through a wait if there is one, and is the next in submission order |
| FtpInvariant.PrepareKeeps | src/ftp.c:665-683 | without an overlap an opened data connection finds nothing else under way |
| FtpInvariant.WaitKeeps | src/ftp.c:303-342 | the wait for a reply keeps all invariants |
| FtpInvariant.ExecQueuedKeeps | src/ftp.c:218-236 | the head of the queue is what starts next |
| FtpInvariant.QueueKeeps | src/ftp.c:239-301 | an operation is started if nothing is busy or queued, and otherwise only put in line |
| FtpInvariant.SubmittedKeeps | src/ftp.c:863-864 | all that is submitted while `busy` is above zero or something is in line is put in line, in order, whatever a wait would bring |
| FtpInvariant.DoneKeeps | src/ftp.c:1033-1035 | the completion callback of a transfer is recorded, and what it submits put in line |
| FtpInvariant.NewConnKeeps | src/ftp.c:609-615 | TYPE, PWD and LIST are submitted in that order and only TYPE starts, whatever a wait would bring |
| FtpInvariant.PasvKeeps | src/ftp.c:778-833 | after the reply to PASV the invariants hold whether it was usable or PORT went out |
| FtpInvariant.DispatchKeeps | src/ftp.c:578-583 | every handler that settles its reply leaves `busy` right, callbacks included |
| FtpInvariant.LoginKeeps | src/ftp.c:584-606 | the login dialogue keeps all invariants |
| FtpInvariant.TakeKeeps | src/ftp.c:556-579 | a legal line finds a state in which it can be handled; only LIST and RETR hear preliminary replies |
| FtpInvariant.LinesKeep | src/ftp.c:463-505 | any number of response lines keep all invariants |
| FtpInvariant.DataEndKeeps | src/ftp.c:507-539 | the end of data takes one off `busy` and starts nothing |
| FtpInvariant.HandleKeeps | src/ftp.c:413-438 | every event keeps all invariants, and an idle client with operations in line starts the first |
| FtpOverlap.EveryRun | src/ftp.c:218-301 | over every run: the meaning of `busy`, never negative, no line inside a line, start order, one command for undiscerning handlers; without overlap one command and one data operation at most, the latter exactly if its command was sent on the open data connection, every final reply but that to TYPE heard by its own handler and every end of data by that of its own transfer |
| FtpOverlap.EndCompletes | src/ftp.c:1020-1039 | without overlap the end of data calls the completion callback of the transfer whose command was sent on the connection |
| FtpOverlap.ErrorCompletes | src/ftp.c:1013-1016 | without overlap an error reply completes the transfer that its command belongs to, and no other, if and only if it is not the reply to a TYPE behind a download |
| FtpOverlap.WaitOverlaps | src/ftp.c:303-342 | an operation starts inside a wait if and only if one is in line and the lines that wake the client leave it idle; with an empty queue none does, and otherwise `busy` is above zero |
| FtpOverlap.OverlapDecided | src/ftp.c:166-236 | for each course of the wait, whether operations overlap |
| FtpOverlap.OverlapExact | src/ftp.c:665-683 | another operation can start inside one that starts now if and only if that one needs data, no data connection is open, the client is passive and something is queued |
| FtpOverlap.MishapDecided | src/ftp.c:665-746 | for each course of the wait, whether the operation leaves a reply to be misheard, whether it jams the client, and which two commands are out |
| FtpOverlap.MishearExact | src/ftp.c:665-746 | an operation can come to leave a reply that another handler will hear if and only if it is LIST or a download, has to open a data connection by PASV, and the next in line sends a command with another handler |
| FtpOverlap.JamExact | src/ftp.c:665-746 | in the same place the client can be jammed if and only if the next in line is LIST or a download |
| FtpLaws.CommandGoesOut | src/ftp.c:622-648 | TYPE with image or ASCII in either case, PWD, CWD and CDUP put exactly their command out under their own handler, and the stubs nothing |
| FtpLaws.SubmitStarts | src/ftp.c:239-301 | what is submitted starts at once on an idle client with nothing in line, and is put in line otherwise |
| FtpLaws.TransferGoesOut | src/ftp.c:690-746 | LIST or RETR goes out, last and with both its handlers, if and only if the data connection is open or the lines of the wait open it; then one more data operation is running, and otherwise none |
| FtpLaws.UploadPrepares | src/ftp.c:730-746 | an upload opens the data connection under the same condition and sends nothing over an open one |
| FtpLaws.DataAskedFor | src/ftp.c:344-411 | without a data connection PASV goes out, or PORT with a listening socket, each with its handler, or nothing if the client cannot listen |
| FtpLaws.PasvAccepted | src/ftp.c:807-827 | a usable PASV reply opens the data connection and changes nothing else |
| FtpLaws.PasvRefused | src/ftp.c:829-832 | any but a usable PASV reply ends the passive mode and sends PORT if the client can listen |
| FtpLaws.PwdHeard | src/ftp.c:835-854 | the directory changes if and only if the code is 257 and the line holds two quotes, and nothing else does |
| FtpLaws.PwdSays | src/ftp.c:835-854 | in the usual form of the reply the directory is the text in quotes |
| FtpLaws.CwdHeard | src/ftp.c:856-866 | after code 250, and no other, PWD and LIST are put in line in that order |
| FtpLaws.PlainHeard | src/ftp.c:868-879 | the final reply to LIST, RETR or PORT is counted and changes nothing else |
| FtpLaws.PreliminaryHeard | src/ftp.c:870-873 | a preliminary reply to LIST or RETR changes nothing |
| FtpLaws.GreetingHeard | src/ftp.c:586-589 | a greeting of 220 is answered with USER |
| FtpLaws.LoginHeard | src/ftp.c:584-606 | before a handler is installed 331 is answered with PASS, 220 with USER, and other codes with nothing |
| FtpLaws.LoginDone | src/ftp.c:593-598 | at the end of the login TYPE goes out with PWD and LIST in line, or all three wait behind what was in line already |
| FtpLaws.UncodedIgnored | src/ftp.c:568-574 | a line without a code and a continuation change nothing |
| FtpLaws.ContinuationIgnored | src/ftp.c:550-552 | such as three digits and a dash |
| FtpLaws.LinesInOrder | src/ftp.c:488-496 | lines are taken one after the other |
| FtpLaws.FirstOfFour | src/ftp.c:518-537 | the first end of data within four reads is the one that counts |
| FtpLaws.FourReads | src/ftp.c:518-537 | four reads without one change nothing |
| FtpLaws.EndCloses | src/ftp.c:955-1039 | the end of data closes the connection; the handler of LIST is taken out, that of a transfer stays and its submissions are put in line |
| FtpLaws.AcceptedServes | src/ftp.c:423-429 | in active mode the connection that the server opens is what the next LIST or RETR goes out over |
| FtpLogin.ListIsStarted | src/ftp.c:586-615 | whatever the user submits during the login, TYPE, PWD and LIST are started first, in that order |
| FtpLogin.FirstListing | src/ftp.c:586-716 | the run from greeting to first listing: the named directory is current, LIST went out over the connection that PASV opened, its data ended, nothing is left busy, queued or misheard |
| FtpJam.StuckForGood | src/ftp.c:432-436 | a jammed client stays jammed over every run and starts nothing |
| FtpJam.CanGetOn | src/ftp.c:413-438 | a client that is not jammed has inputs, found here, that make it idle or start the next operation |
| FtpJam.JammedForGood | src/ftp.c:432-436 | in every run, the client never gets on again whatever happens if and only if more data operations are running than can end; and that takes an overlap |
| FtpMishap.RunThatOverlaps | src/ftp.c:413-438 | whatever the user submits during the login, a run in which the first of it starts inside the wait of LIST; a reply will be misheard if and only if that operation has a handler other than that of LIST, and the client is jammed if and only if it is LIST or a download |
| FtpMishap.NextReply | src/ftp.c:578-583 | the next final reply is then in fact heard by the handler of LIST |
| FtpEngine.Ftp.ExecOp | src/ftp.c:166-216 | runs the operation by its kind; stubs do nothing |
| FtpEngine.Ftp.FtpList | src/ftp.c:690-716 | LIST goes out only over an open data connection, with both its handlers |
| FtpEngine.Ftp.FtpTransfer | src/ftp.c:730-746 | RETR goes out only over an open data connection, with handlers for that transfer; an upload only prepares one |
| FtpEngine.Ftp.PrepareData | src/ftp.c:665-683 | an open data connection is kept; PASV with its wait, or PORT, goes out otherwise |
| FtpEngine.Ftp.WaitResp | src/ftp.c:303-342 | handles one event of the control connection or none |
| FtpEngine.Ftp.ExecQueued | src/ftp.c:218-236 | unlinks the head of the queue and starts it |
| FtpEngine.Ftp.Queue | src/ftp.c:239-301 | starts the operation at once if nothing is busy or queued, else links it in at the tail |
| FtpEngine.Ftp.Done | src/ftp.c:1033-1035 | the completion callback of that transfer is called and its submissions made |
| FtpEngine.Ftp.Submitted | src/ftp.c:863-864 | submits all operations of a callback, in order |
| FtpEngine.Ftp.CallCproc | src/ftp.c:767-879 | each handler, that of transfers (`src/ftp.c:999-1018`) too, does its part and says whether it expects more |
| FtpEngine.Ftp.ProcControl | src/ftp.c:556-607 | one response line goes to the installed handler, or to the login dialogue before there is one |
| FtpEngine.Ftp.TakeLine | src/ftp.c:561-574 | blanks in front are skipped, lines without a code and continuations ignored |
| FtpEngine.Ftp.HandleControl | src/ftp.c:463-505 | all lines of a read, in order |
| FtpEngine.Ftp.DataEnd | src/ftp.c:1020-1039 | the end of data completes the transfer that the handler is installed for, lowers `busy` by one and closes the connection |
| FtpEngine.Ftp.HandleData | src/ftp.c:507-539 | at most four reads, up to the first end of data |
| FtpEngine.Ftp.Handle | src/ftp.c:413-438 | handles the event and, when idle, starts the next queued operation |
| FtpEngine.Ftp.Take | src/ftp.c:413-438 | one input to the client itself; all invariants are kept |
| FtpEngine.Ftp.Session | src/ftp.c:218-301 | any run of the client itself: its state is the one of the function, so everything proved of runs holds of it |

## Left out

- `nline` of the parser is counted and never read; `toktypestr` and the error messages on `stderr` have no effect on results.
- The text form of numbers kept beside them (`str` and `inum` of a number value, `src/treestor.c:98-116`, `src/treestor.c:259-299`) and the varargs setters.
- TsNumber.AtofOfFormatG: leaves out rounding of `float`, `%g` with an exponent or with more than six significant digits, and the sign of zero.
- A null name or a name with a zero in it cannot be printed; the model's names and strings are without zeros.
- The parser and the lookups work on trees as values with attribute and child sequences. Linked child lists are proved separately in `TsLinks`, on the pointers; attribute lists (`ts_add_attr`) are only ever appended to and are sequences throughout. `attr_count` and `child_count` are never updated by the source.
- TsPrinter.Writer.TextSave: takes the level as a parameter, one more for each child, where the source walks up the parents; `TsLevels.ChildOneDeeper` shows on the pointers that this is the same.
- The parser's token buffer is a `string`; that the string macros keep text and final zero is proved in `Darray`.
- `ts_load`, `ts_save`, `ts_copy_attr`, the `ts_get_attr_*` and `ts_lookup_*` wrappers: easy members around what is modelled.
- Freeing memory and failing allocation.
- `darr_finalize`; 32-bit overflow of sizes.
- Drawing beyond the rows it reads, callbacks of widgets, and `tui_sort_list`, which rearranges entries and moves no cursor.
- TuiList.ListWidget.ToggleSel: requires an existing row, as the source does not check.
- FtpAddress.ParsePasv: a number too wide for `%u` is undefined in C and saturates at 32 bits here; the theorems about rendered tuples are about numbers that fit.
- `qsort` is replaced by an insertion sort that meets its promise; `FtpDirectory.SortUnique` shows that kinds and names do not depend on the algorithm. Sizes of entries with equal kind and name may differ in order.
- FtpDirectory.ParseDirent: reads no further than the received bytes, while the source's search for a line end can run past them when the last line is unfinished; `atoi` is unbounded.
- A directory entry has no size in the model; the source leaves that field unset for directories.
- FtpFraming.Control.Receive: requires that the kept bytes leave room; the reset of a full buffer (`src/ftp.c:469-474`) cannot happen because at least one byte of a chunk with a line feed is always given up.
- FtpEngine.Ftp.CallCproc: does not model the size in a preliminary transfer reply, which only updates a progress figure.
- FtpEngine.Ftp.TakeLine: skips the lines that the assumed server would not send, where the source handles them.
- FtpEngine.Ftp.HandleData: skips an end of data before a transfer command was sent on the connection, where the source closes the connection.
- FtpEngine.Ftp.HandleControl: treats the lines of a read as events of the engine; their cutting from bytes is `FtpFraming`, their codes `FtpReply.RespCode`. `FtpOverlap.EveryRun` holds for all lines and so for those.
- A closed control connection, `ftp_close`, `ftp_connect`, timeouts and error replies (400 and above) to PORT; after an error reply to RETR the completion callback may run again at the end of data, which the model allows. The bytes of a download and where they are written.
- `ftp_mkdir`, `ftp_rmdir`, `ftp_delete`, `ftp_retrieve`, `ftp_store` and uploads do nothing in the source and nothing in the model.
- Sockets, `select`, host names, the user interface, `src/main.c`, `src/viewer.c` and `src/util.c`.
