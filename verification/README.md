# niLang core algorithms: models and proofs

A Dafny model of five parts of niLang and proofs of what they promise. Each part is modelled in the
form its code has: objects with fields that methods change, loops over buffers, functions where the
code only computes. Every such method is proved against a specification function, and lemmas state
what the specification promises.

* **Expressions** (`ExprOps`, `ExprRun`, `ExprParser`, `ExprGrammar`, `ExprLexer`, `EnumFlags`,
  `ExprText`, `ExprWords`, `ExprWriting`): the evaluator rewrites its own tree, folding constant
  operations into flagged variables; this is invisible over any run of updates and evaluations. The
  parser realises one left-associative grammar, and any phrase of it written as text, however spelled and
  spaced, is read back as its tree. Enumeration flags written as text are tokenized, parsed, built into
  operations and evaluated back to the value.
* **Files** (`BitNumbers`, `MemFile`, `BitFile`, `BitScript`, `PackedInts`, `BlockFile`, `BlockCopy`): the
  growable memory file, bit input and output on top of it, prefix-coded integers, the block encoder and
  seekable decoder over a flat stream, and whole transfers through them.
* **Data tables** (`Table`, `TableObject`, `TableFormat`, `TableFile`, `FilePattern`, `PatternPieces`,
  `TablePath`, `TableWalk`, `PathAgreement`): deep copy and merge of trees of linked objects, their
  binary form in plain and block-compressed files, file name patterns and what they mean, and paths that
  are parsed, followed by pattern and created by name, with the exact condition under which the two agree.
* **Passwords** (`Radix64`, `Blowfish`, `Bcrypt`, `BcryptText`): the bcrypt digits, the cipher, the
  key schedule in place, and the text form; checking a password is a fixpoint. The reference is
  N. Provos and D. Mazieres, "A Future-Adaptable Password Scheme", USENIX 1999, the sections on
  Eksblowfish and bcrypt.
* **Threads** (`ThreadPool`, `PoolShutdown`, `PoolRuns`, `MessageQueue`): queues with work stealing and
  message queues with their registry, as state machines whose steps are the program's lock regions,
  counter accesses and event operations, in every interleaving; every shutdown ends within a bound.

`Wrappers` and `Chars` hold an option type and character classes.

## Where the code does something else than one might expect

* A write from the position one past the end, where a failed read leaves a memory file, puts one zero
  byte first (`MemFile.DynamicMem.WriteRaw`).
* A negative packed integer on the 24- or 48-bit leaf does not come back (`PackedInts.SignedReadBack`
  says exactly when).
* Tokens after the first phrase of an expression are ignored (`Parsing.ParseExpr`).
* A flag whose name looks like `eName` and is the name of a known enumeration cannot be read back
  (`EnumFlags.FlagsReadBack` says exactly when, `TextEvaluation.FlagLost` gives one).
* Merging a tree twice can change the result when siblings share a name
  (`Tables.MergeTwiceNeedsUnique` gives such a tree).
* Paths are created by exact names but followed as file name patterns, which ignore case, so a path
  can lead elsewhere than where it was created (`PathAgreement.CreatedButNotFound`,
  `PathAgreement.SetButNotRead`; `PathAgreement.CreatedIsFound` and `PathAgreement.RootPathLeadsBack`
  say exactly when). A name that begins with an exclamation mark is never found, although
  `sources/niLang/src/FilePattern.cpp:104` lists names that such a pattern matches
  (`PathAgreement.NegatedIsNeverFound`).
* `FileBufferDecode` takes the size of the decoded data where its caller may expect to pass that of the
  packed data, and then gives only part of it (`BlockCopies.PackedSizeLosesBytes`).
* Sending a message and closing its queue take the registry's lock and the queue's lock in opposite
  orders, so the two can wait for each other for ever (`Messages.StuckIsDeadlock`).
* A thief resets the event of the queue it robs even when runnables remain, so the pool can stall with
  a runnable queued and every worker asleep (`PoolRuns.PoolCanStall`). A graceful shutdown can lose a
  runnable accepted before it, when its worker is already past its last look at the queue
  (`PoolRuns.ShutdownLosesAccepted`), and one of a client already past the test for a shutdown
  (`PoolRuns.LateSubmission`). `ThreadPool.NeglectsExactly` says which steps do this, and
  `ThreadPool.NothingLeftUnseen` that without them nothing is lost.

## Model

| member | source | states |
|---|---|---|
| Folding.Op.Eval | sources/niLang/src/Expression.cpp:1459-1521 | a result is returned exactly when the expression as parsed has a value for the present variables, and it holds that value; once evaluated, constant operands are folded, and a constant result is returned again without touching anything |
| Folding.Op.IsConstant | sources/niLang/src/Expression.cpp:1546-1562 | after any number of evaluations, an operation is constant exactly when no variable of the context occurs in it: no mutable variable is ever taken for a constant |
| Folding.Op.EvalOperand | sources/niLang/src/Expression.cpp:568-579 | an operand is evaluated to its own meaning and the other operands keep their variables and values |
| Folding.Op.EvalOperands | sources/niLang/src/Expression.cpp:1485-1493 | all operands are evaluated in order; it fails exactly when one of them has no value |
| Folding.Op.FoldOperands | sources/niLang/src/Expression.cpp:1495-1503 | replacing constant operations by their flagged results changes neither the meaning of the operation nor any operand that is not constant |
| Folding.Op.EvalCond | sources/niLang/src/Expression.cpp:4924-4970 | `If` takes the value after the first true test, else the last operand; operands not chosen are not needed for the result |
| Folding.IfChooses | sources/niLang/src/Expression.cpp:4924-4970 | what an `If` means: after tests that mean one of the two zeros, the value after the first that means anything else, or the last operand if there is none; nothing if a test without a meaning comes first |
| Expressions.EvalIf | sources/niLang/src/Expression.cpp:4924-4970 | the same of what evaluating an `If` answers |
| Folding.ClosedIsConstant | sources/niLang/src/Expression.cpp:1543-1562 | an expression without context variables means the same in every environment, which is what makes folding sound |
| Folding.SameApply | sources/niLang/src/Expression.cpp:1459-1521 | an operation depends on its operands only through their meanings, groups and `If` included |
| Folding.Op.SetupEvaluation | sources/niLang/src/Expression.cpp:1936-1939 | a group's result becomes its operand's variable, another operation gets a result of its own; it fails exactly for unary plus |
| Folding.Op.DoEvaluate | sources/niLang/src/Expression.cpp:2159-2169 | the result holds the operation applied to its operands' values, and stays the same variable |
| Expressions.Build | sources/niLang/src/Expression.cpp:5824-5868 | literals become flagged variables, names the context's variables, operators operations, the state the parser leaves a tree in |
| Expressions.Run | sources/niLang/src/Expression.cpp:1459-1521 | over any run of updates to variables mixed with evaluations, every evaluation answers the plain meaning at that moment |
| Expressions.BuildAndRun | sources/niLang/src/Expression.cpp:5783-5821 | a freshly built tree over variables and constants of a context answers, over any such run, the meaning of the expression as written, and flags no variable |
| Expressions.FreezeMeaning | sources/niLang/src/Expression.cpp:1926-1944 | writing the constants of the context into the expression does not change its meaning |
| Parsing.ProcessToken | sources/niLang/src/Expression.cpp:5824-6230 | the parser that threads one cursor and the operation being filled does exactly what the recursive-descent reading does, and its cursor ends on the last token consumed |
| Parsing.ProcessOperand | sources/niLang/src/Expression.cpp:5824-6050 | an operand is read as a unit: unary operators, then a literal, a name, a group or a call |
| Parsing.ProcessCall | sources/niLang/src/Expression.cpp:5884-5988 | a call needs its parenthesis and, as its function asks, no operands, any number or exactly that many |
| Parsing.ProcessAnyArgs | sources/niLang/src/Expression.cpp:5902-5939 | operands of a function of any number, up to and including the closing parenthesis |
| Parsing.ProcessFixedArgs | sources/niLang/src/Expression.cpp:5947-5986 | exactly as many operands as the function takes, up to and including the closing parenthesis |
| Parsing.ParseExpr | sources/niLang/src/Expression.cpp:5783-5821 | the whole expression becomes the operand of a group; tokens after the first phrase are not looked at |
| Grammar.ParserRealisesGrammar | sources/niLang/src/Expression.cpp:5824-6230 | the parser accepts exactly the token lists that begin with a longest phrase of the grammar, consumes that phrase and builds its left-nested tree, all binary operators having one precedence |
| Grammar.Unambiguous | sources/niLang/src/Expression.cpp:5824-6230 | two phrases with the same tokens have the same tree |
| Grammar.PrintThenParse | sources/niLang/src/Expression.cpp:5824-6230 | printing a tree with all parentheses and parsing it gives the tree back up to groups and leaves no token |
| Grammar.GroupsMeanNothing | sources/niLang/src/Expression.cpp:1926-1944 | group nodes do not change what an expression evaluates to |
| Lexing.MathTokenizer.Words | sources/niLang/src/Expression.cpp:985-1129 | the character loop splits a text into the words that the state machine over quotes, URLs, escapes and one- and two-character symbols defines |
| Lexing.TokenizeExpr | sources/niLang/src/Expression.cpp:5581-5778 | words become tokens one after the other, numbers with a dot, percentages and `eEnum.Name` taking several words; one error fails the whole text |
| ExprWords.LexSpread | sources/niLang/src/Expression.cpp:985-1129 | a text of words of any kind (names, numbers with signed exponents, symbols, strings, URLs) splits into exactly those words, however many blanks are between them and with none wherever two neighbours do not run together |
| ExprWords.BackslashReads | sources/niLang/src/Expression.cpp:1069-1077 | outside strings a backslash is dropped, and two are one |
| ExprWords.BackquoteTakesAll | sources/niLang/src/Expression.cpp:1051-1053 | a backquote makes the remainder of the text one word |
| ExprWriting.TokenReads | sources/niLang/src/Expression.cpp:5581-5778 | within the words of a phrase each token is read from its own: an operator takes two operands exactly if an operand ends before it, brackets may be square but for those of a call, and atoms may be decimals, percentages, elements of an enumeration, strings or URLs |
| ExprWriting.TextParses | sources/niLang/src/Expression.cpp:5581-6230 | any phrase of the grammar, written as text however its atoms are spelled and its words spaced, is tokenized and parsed as the group of its left-nested tree |
| ExprWriting.PrintedMeans | sources/niLang/src/Expression.cpp:5581-6230 | the text of a tree printed with all parentheses means what the tree means |
| EnumFlags.GetEnumFlagsString | sources/niLang/src/Expression.cpp:903-939 | the text is the names of the flags found in order of declaration, each taken out of the value, then `0x` and eight digits for what is left, joined by bars |
| EnumFlags.HasFlagMeans | sources/niLang/src/Expression.cpp:903-939 | a flag is found in a value exactly if it has a bit and all of its bits are in the value |
| EnumFlags.BitOfWithout | sources/niLang/src/Expression.cpp:903-939 | taking a flag out of a value removes its bits and no others |
| EnumFlags.PartsTotal | sources/niLang/src/Expression.cpp:903-939 | the pieces written for a value hold all of its bits and no others, whatever masks the enumeration names |
| EnumFlags.LexJoined | sources/niLang/src/Expression.cpp:985-1129 | identifiers joined by bars split into those identifiers and the bars between them |
| EnumFlags.NumberReads | sources/niLang/src/Expression.cpp:1159-1252 | `0x` and eight hexadecimal digits of a 32-bit value read as that value |
| EnumFlags.HexNumbersRead | sources/niLang/src/Expression.cpp:1159-1235 | a zero, an x in either case and up to eight hexadecimal digits read as the number they write, whatever follows; more digits are an error |
| EnumFlags.OtherNumbersRead | sources/niLang/src/Expression.cpp:1180-1213 | any other word is a decimal number if it begins with a digit, a dot or a minus, and none otherwise |
| EnumFlags.ReadJoined | sources/niLang/src/Expression.cpp:6428-6449 | a text of words that read as numbers, joined by bars, is tokenized, parsed and evaluated to all their bits |
| TextEvaluation.FlagsThroughText | sources/niLang/src/Expression.cpp:6428-6477 | the same of the running code: the flags are written, and the text is tokenized, parsed, built into operations and evaluated; the value comes back under exactly that condition |
| TextEvaluation.FlagLost | sources/niLang/src/Expression.cpp:5710-5717 | an input on which it does not: an enumeration `eFoo` with a flag `eFoo` of value 1, written as "eFoo" and read as 0 |
| TextEvaluation.EvalText | sources/niLang/src/Expression.cpp:834-869 | evaluating a text through tokens, parser, operations and `Op::Eval` gives the meaning of what was parsed, and fails exactly if the text cannot be parsed or has no value |
| TextEvaluation.ReadEnum | sources/niLang/src/Expression.cpp:6428-6449 | the number read is the meaning of the text as an unsigned integer, zero on any failure |
| EnumFlags.FlagsReadBack | sources/niLang/src/Expression.cpp:6428-6477 | for any enumeration with distinct identifier names and any value below 2^31, writing the flags and reading the text gives the value back exactly if no flag is written under a name like `eName` that is also the name of an enumeration the context knows; zero is written as nothing and reads as zero |
| MemFile.DynamicMem.ReadRaw | sources/niLang/src/FileCore.cpp:1637-1655 | a read gives the bytes from the cursor to the end at most; at or past the end it gives nothing and leaves the cursor one past the end |
| MemFile.DynamicMem.WriteRaw | sources/niLang/src/FileCore.cpp:1657-1670 | a write replaces the bytes at the cursor and grows the file; from one past the end a single zero byte comes first; the cursor keeps its offset when the buffer moves |
| MemFile.DynamicMem.Seek | sources/niLang/src/FileCore.cpp:1723-1729 | the cursor moves by the offset and stays within the file |
| MemFile.DynamicMem.SeekSet | sources/niLang/src/FileCore.cpp:1730-1736 | the cursor goes to the offset and stays within the file |
| MemFile.DynamicMem.SeekEnd | sources/niLang/src/FileCore.cpp:1737-1739 | the cursor goes that far before the end, or to the start |
| MemFile.DynamicMem.Reset | sources/niLang/src/FileCore.cpp:1672-1675 | the file is empty and the cursor at its start |
| MemFile.Replay | sources/niLang/src/FileCore.cpp:1621-1762 | over any run of reads, writes, seeks, resets and questions for place and size, the file answers as a byte sequence with a cursor, and spare bytes of the buffer are never seen |
| MemFile.OverwriteTwice | sources/niLang/src/FileCore.cpp:1657-1670 | two writes in a row are one write of both |
| BitIO.BitFile.WriteBits | sources/niLang/src/FileCore.cpp:647-722 | the low bits of the value are appended to all bits written so far, in either byte order; later bytes of the file stay |
| BitIO.BitFile.EndWriteBits | sources/niLang/src/FileCore.cpp:629-640 | an unfinished byte goes out padded with zeros, and the section's size in bytes is reported |
| BitIO.BitFile.ReadBits | sources/niLang/src/FileCore.cpp:775-856 | the next bits of the file replace the low bits of the destination; the others stay |
| BitIO.BitFile.EndReadBits | sources/niLang/src/FileCore.cpp:759-767 | the rest of the section's last byte is dropped and the section's size in bytes is reported |
| BitIO.BitFile.WriteRaw | sources/niLang/src/FileCore.cpp:105-111 | raw bytes first end an open bit section, then follow it on a byte boundary |
| BitIO.BitFile.ReadRaw | sources/niLang/src/FileCore.cpp:98-103 | a raw read first ends an open bit section, then takes bytes from the next byte boundary |
| BitIO.BitFile.BeginWriteBits | sources/niLang/src/FileCore.cpp:624-628 | a section begins without changing what has been written, but one that is open loses the bits of its unfinished byte |
| BitIO.BitFile.BeginReadBits | sources/niLang/src/FileCore.cpp:751-757 | a section begins at the next byte |
| BitIO.EmittedDetermines | sources/niLang/src/FileCore.cpp:647-722 | the bits written determine the value modulo two to the width |
| BitScript.WriteScript | sources/niLang/src/FileCore.cpp:98-111 | any script of bit writes, raw writes and section ends leaves the file's bits followed by the script's image, realigned at every change, and reports ceil(B/8) for a section of B bits |
| BitScript.ReadScript | sources/niLang/src/FileCore.cpp:751-856 | reading a script's image by the matching calls gives each value modulo two to its width, each raw block, and each section's size |
| BitScript.WriteThenRead | sources/niLang/src/FileCore.cpp:98-111 | any script written and read back gives every value modulo two to its width and every raw block, and both sides report the same section sizes |
| PackedInts.WritePackedU | sources/niLang/src/FileCore.cpp:998-1077 | an unsigned value is written as its code word: one bit per wider size tried, then the fixed-width leaf |
| PackedInts.ReadPackedU | sources/niLang/src/FileCore.cpp:1079-1119 | reading where a value was written packed gives it back and consumes exactly its code word |
| PackedInts.PackThenUnpack | sources/niLang/src/FileCore.cpp:998-1119 | any list of 64-bit values written packed reads back exactly |
| PackedInts.PackedSize | sources/niLang/src/FileCore.cpp:998-1077 | a 64-bit value takes 10, 14, 21, 28, 35, 50 or 65 bits |
| PackedInts.PackedPrefixFree | sources/niLang/src/FileCore.cpp:998-1077 | no code word begins another |
| PackedInts.WritePackedI | sources/niLang/src/FileCore.cpp:1121-1190 | a signed value is written as its code word, the leaf chosen by its magnitude |
| PackedInts.ReadPackedI | sources/niLang/src/FileCore.cpp:1192-1233 | reading gives the leaf's bits sign-extended on 8, 16, 32 and 64 bits and zero-extended on 24 and 48 |
| PackedInts.SignedReadBack | sources/niLang/src/FileCore.cpp:1121-1233 | a signed value comes back as itself exactly when it is not negative or not on the 24- or 48-bit leaf; there it comes back larger by 2^24 or 2^48 |
| PackedInts.PackThenUnpackSigned | sources/niLang/src/FileCore.cpp:1121-1233 | any list of signed values written packed reads back as itself, but for 2^24 or 2^48 added to the negative values on the 24- and 48-bit leaves |
| PackedInts.WideLeaves | sources/niLang/src/FileCore.cpp:1121-1190 | the values on those two leaves, by magnitude |
| PackedInts.SignedLossExample | sources/niLang/src/FileCore.cpp:1160-1225 | -40000 takes the 24-bit leaf and reads back as 16737216 |
| BlockFile.Encoder.WriteRaw | sources/niLang/src/BufferEncDec.cpp:39-48 | what has been accepted is the written blocks followed by the buffer; at most one block goes out, not empty and shorter than the buffer size plus this write; fewer than the buffer size stay buffered |
| BlockFile.Encoder.FlushBufferToFile | sources/niLang/src/BufferEncDec.cpp:50-74 | a non-empty buffer goes to the file as one frame: marker, unpacked size, packed size, packed bytes |
| BlockFile.Encoder.Flush | sources/niLang/src/BufferEncDec.cpp:97-101 | everything accepted is in whole blocks afterwards |
| BlockFile.Encoder.Invalidate | sources/niLang/src/BufferEncDec.cpp:28-33 | everything accepted has been written as blocks, and nothing is accepted any more |
| BlockFile.Encode | sources/niLang/src/BufferEncDec.cpp:39-101 | any run of writes and flushes, closed, appends frames whose contents are the writes in order; no block is empty, each is shorter than the buffer size plus the longest write |
| BlockFile.Decoder.ReadRaw | sources/niLang/src/BufferEncDec.cpp:149-206 | a read gives exactly the bytes of the decoded stream from the position on, as many as there are, and moves the position by that much |
| BlockFile.Decoder.ReadBufferFromFile | sources/niLang/src/BufferEncDec.cpp:170-206 | the next block is loaded; nothing is read only at the end of the blocks |
| BlockFile.Decoder.Position | sources/niLang/src/BufferEncDec.cpp:149-206 | the position is the unpacked bytes before the loaded block plus the place in it, and the rest of the loaded block is the stream from there |
| BlockFile.Decoder.SeekSet | sources/niLang/src/BufferEncDec.cpp:240-264 | seeking lands where a flat stream would, going forward or starting over |
| BlockFile.Decoder.Seek | sources/niLang/src/BufferEncDec.cpp:231-239 | seeking by an offset lands where a flat stream would |
| BlockFile.Decoder.SeekEnd | sources/niLang/src/BufferEncDec.cpp:266-269 | seeking from the end lands where a flat stream would |
| BlockFile.Decoder.GetSize | sources/niLang/src/BufferEncDec.cpp:214-229 | the size is that of the whole decoded stream, and the position is restored |
| BlockFile.PerformAll | sources/niLang/src/BufferEncDec.cpp:142-269 | over any run of reads, seeks and size queries the decoder answers as the flat stream would |
| BlockFile.EncodeThenDecode | sources/niLang/src/BufferEncDec.cpp:39-269 | whatever is written and flushed through the encoder, the decoder reads back whole, its size found by reading |
| BlockCopies.CopyDecoded | sources/niLang/src/FileCore.cpp:1245-1275 | the copying loop of `WriteFile` puts the first bytes of the decoded stream into the destination, as many as were asked for or as there are |
| BlockCopies.CopyEncoded | sources/niLang/src/FileCore.cpp:1245-1275 | the copying loop of `WriteFile` hands the encoder the bytes of the source from its cursor on, as many as were asked for or as there are; each block is shorter than the two buffers together |
| BlockCopies.FileBufferEncode | sources/niLang/src/BufferEncDec.cpp:338-346 | the destination gets frames whose blocks hold the copied bytes of the source, the last block flushed when the call gives the encoder up |
| BlockCopies.FileBufferDecode | sources/niLang/src/BufferEncDec.cpp:348-356 | the first size is the number of decoded bytes to copy, the second is not looked at: the destination gets that many bytes of the stream, or all of it |
| BlockCopies.WholeIffAsked | sources/niLang/src/BufferEncDec.cpp:348-356 | the stream comes out whole exactly if the size passed is at least its length |
| BlockCopies.PackedSizeLosesBytes | sources/niLang/src/BufferEncDec.cpp:348-356 | an input on which a call with the size of the packed file loses bytes: thirteen come out of a hundred |
| BlockCopies.TransferBack | sources/niLang/src/BufferEncDec.cpp:338-356 | encoding part of a file and decoding it from there gives the first bytes of that part, as many as were asked for |
| Tables.MergeTwice | sources/niLang/src/DataTable.cpp:555-631 | merging (Recursive, UniqueChild, Clone) a tree with names unique among siblings is idempotent, whatever it is merged into |
| Tables.MergeTwiceNeedsUnique | sources/niLang/src/DataTable.cpp:555-631 | without unique names a second merge can change the tree: an example |
| Tables.SelfMerge | sources/niLang/src/DataTable.cpp:555-631 | a tree with unique names merged into itself is itself |
| Tables.PropsKept | sources/niLang/src/DataTable.cpp:573-578 | a merge keeps every property of the destination at its place, changed only if the source has one of its name |
| Tables.ChildrenKept | sources/niLang/src/DataTable.cpp:586-597 | a merge keeps every child of the destination at its place, changed only if the source has a child of its name |
| TableObjects.DataTable.SetVar | sources/niLang/src/DataTable.cpp:245-249 | a property is set at its place, or added at the end under a new name |
| TableObjects.DataTable.SetMetadataFromIndex | sources/niLang/src/DataTable.cpp:1390-1397 | the metadata of a property is set, and nothing happens past the last |
| TableObjects.DataTable.CopyProperties | sources/niLang/src/DataTable.cpp:573-578 | every property of the source is set on the destination, in order, with its metadata |
| TableObjects.DataTable.MergeChild | sources/niLang/src/DataTable.cpp:586-597 | a child of the source is merged into the first child of its name, or cloned at the end |
| TableObjects.DataTable.AddChild | sources/niLang/src/DataTable.cpp:634-642 | the child comes last and points to its parent; the tree stays a tree |
| TableObjects.DataTable.GetChildIndex | sources/niLang/src/DataTable.cpp:530-538 | the first child of that name |
| TableObjects.DataTable.Copy | sources/niLang/src/DataTable.cpp:555-631 | the destination becomes the merge, or the concatenation when children are appended, of the two trees; the source is unchanged, and every table added is new |
| TableObjects.DataTable.Clone | sources/niLang/src/DataTable.cpp:491-502 | the copy has the same structure, shares no table with its source and has no parent |
| TableFormat.ReadBackVar | sources/niLang/src/Var.cpp:727-804 | a saved value is read back, whatever bytes follow it |
| TableFormat.ReadBackTable | sources/niLang/src/DataTable_Serialize.cpp:34-101 | reading a saved tree followed by any bytes into a table adds exactly that tree, missing metadata having become empty, and leaves exactly those bytes |
| TableFormat.ReadBackTree | sources/niLang/src/DataTable_Serialize.cpp:34-101 | read into an empty table, a saved tree is the tree read |
| TableFile.WriteTable | sources/niLang/src/DataTable_Serialize.cpp:34-62 | the tree's bytes are appended to what was written; it fails exactly when some value below cannot be saved |
| TableFile.WriteVar | sources/niLang/src/Var.cpp:727-761 | a value's type and bytes are appended; it fails exactly for objects and types that are not saved |
| TableFile.ReadValue | sources/niLang/src/Var.cpp:764-804 | the value read and what is left are those of the format, on any bytes |
| TableFile.ReadProperty | sources/niLang/src/DataTable_Serialize.cpp:79-88 | name, value and metadata are read and set on the table |
| TableFile.ReadChildTables | sources/niLang/src/DataTable_Serialize.cpp:90-98 | each child is read into a new table and added; an error stops |
| TableFile.ReadInto | sources/niLang/src/DataTable_Serialize.cpp:65-101 | on any bytes, valid or not, the table read and what is left are those of the format; on an error the table holds what was read before it |
| TableFile.ReadString | sources/niLang/src/TextEncoding.cpp:429-500 | a string ends at a zero byte or at the end of the file |
| TableFile.Save | sources/niLang/src/DataTable_Serialize.cpp:173-190 | a version, then the tree; in the zipped form the version again and the tree through the block encoder, flushed when it is released |
| TableFile.Load | sources/niLang/src/DataTable_Serialize.cpp:193-206 | the form is chosen by the version; another version fails |
| TableFormat.TypeSizes | sources/niLang/src/Var.cpp:727-803 | exactly the types of numbers, vectors and matrices are saved as numbers, each with the bytes of all its numbers, under codes of their own |
| TableFormat.NormalKeeps | sources/niLang/src/DataTable_Serialize.cpp:43-51 | what comes back differs from what was saved at most in metadata, and there only where there was none |
| TableFormat.SameIfAllMeta | sources/niLang/src/DataTable_Serialize.cpp:43-51 | a tree that differs from one in which every property has metadata only in this way is that tree |
| TableFile.SaveThenLoad | sources/niLang/src/DataTable_Serialize.cpp:104-130 | in the plain and in the zipped form, a table saved at the end of a file and loaded into a new one gives a tree of equal names, values and places, its metadata too but that missing metadata becomes empty; a tree in which every property has metadata comes back as it was |
| TablePaths.Tokenizer.StringTokenize | sources/niLang/src/API/niLang/Utils/StringTokenizerImpl.h:222-281 | the loop splits a path into the tokens its character classes define, only a leading slash being a token |
| TablePaths.Tokenizer.GetCharType | sources/niLang/src/DataTablePath.cpp:66-78 | the class of a character, slashes being tokens only at the start |
| TablePaths.ParsePath | sources/niLang/src/DataTablePath.cpp:86-131 | tokens become operations; an at sign must be followed by one token and the end, and an error keeps the operations read before it |
| TablePaths.TrimmedIs | sources/niLang/src/DataTablePath.cpp:86-94 | blanks around the path are taken off, and nothing else |
| TablePaths.PathTextReads | sources/niLang/src/DataTablePath.cpp:313-339 | an absolute path whose names are single tokens reads back as the operations it stands for |
| TableWalks.DataTablePath.constructor | sources/niLang/src/DataTablePath.cpp:167-177 | the operations are those read from the path, even after an error |
| FilePatterns.SubMatch | sources/niLang/src/FilePattern.cpp:222-381 | the matcher accepts exactly the names the pattern describes: single characters, runs with and without dots, quotes, sets and ranges, negation and separators, letters compared without case |
| FilePatterns.IsWellFormed | sources/niLang/src/FilePattern.cpp:143-201 | a pattern is valid exactly if its sets are closed and something follows each quote and exclamation mark |
| FilePatterns.TestName | sources/niLang/src/FilePattern.cpp:474-520 | a name matches a path pattern exactly if the pattern is valid, does not begin with an exclamation mark and describes the name |
| FilePatterns.LiteralMatches | sources/niLang/src/FilePattern.cpp:367-371 | a pattern without wildcards matches exactly the names that differ from it in the case of letters only |
| FilePatterns.QuotedMatches | sources/niLang/src/FilePattern.cpp:289-296 | with every character quoted, any name matches itself up to case and nothing else |
| PatternPieces.PatternMeans | sources/niLang/src/FilePattern.cpp:222-381 | a pattern written from pieces (characters, quoted characters, one character of any kind, runs that stop at delimiters or also at dots, sets of inclusive ranges and their complements, delimiters) matches exactly the names that divide into one part for each piece |
| PatternPieces.ExclusionMeans | sources/niLang/src/FilePattern.cpp:222-381 | an exclamation mark after such pieces takes the complement of what follows it, for the rest of the name |
| PatternPieces.ItemsHold | sources/niLang/src/FilePattern.cpp:298-349 | a character is in a set exactly if it lies, whatever its case, between the ends of one of its ranges, both included |
| TableWalks.DataTablePath.Evaluate | sources/niLang/src/DataTablePath.cpp:185-276 | the result is where the operations lead from the table, each name being a pattern and the first match taken; it fails exactly when the path is empty or leads nowhere |
| TableWalks.DataTablePath.CreatePathInDataTable | sources/niLang/src/DataTablePath.cpp:342-419 | in both modes it fails exactly when the path is empty or goes above the root, nothing that was there changes, and a trace says of every step what it created: a table as last child, a property as last one, or nothing; in the mode that reuses what exists, looking its names up exactly leads to its result, and if they were there before nothing at all changes |
| TableWalks.CreatesFacts | sources/niLang/src/DataTablePath.cpp:342-419 | this follows from the trace alone, for any sequence of such steps |
| TableWalks.WalkGrown | sources/niLang/src/DataTablePath.cpp:185-276 | what a path leads to, by name or by pattern, stays so while tables and properties are added |
| TableWalks.GetRootPathToDataTable | sources/niLang/src/DataTablePath.cpp:313-339 | the path lists the names from below the root down to the table, then the property; it is empty if there is no such property or it has no name |
| PathAgreement.CreatedIsFound | sources/niLang/src/DataTablePath.cpp:185-419 | following a created path leads to what the creation returned exactly if it leads somewhere and, on every step that is not taken back, the name as a pattern finds the table or property of that name first; for a path that does not climb back after a child the second condition alone is exact |
| PathAgreement.LiteralCreatedIsFound | sources/niLang/src/DataTablePath.cpp:185-419 | for names without wildcards and a path that does not climb back after a child: exactly if no step has an earlier sibling or property whose name differs in the case of letters only |
| PathAgreement.FoundIffClearBefore | sources/niLang/src/DataTablePath.cpp:185-419 | for a path that does not climb back, the same told from the tree before the creation: exactly if, as far as the names are there, each is the first that it matches, the first missing one matches nothing there, and it and those after it match themselves |
| PathAgreement.LiteralFoundIffBefore | sources/niLang/src/DataTablePath.cpp:185-419 | ... and for names without wildcards: exactly if no earlier sibling or property, nor any beside the first missing name, differs in case only |
| PathAgreement.WalkNet | sources/niLang/src/DataTablePath.cpp:185-419 | a path that leads somewhere leads where it leads without the steps it takes back |
| PathAgreement.CreatedButNotFound | sources/niLang/src/DataTablePath.cpp:221-245 | an input on which they disagree: below a root with a child "A", creating "a" adds a child, and following "a" leads to "A" |
| PathAgreement.SetButNotRead | sources/niLang/src/DataTablePath.cpp:246-263 | beside a property "X", a value set at "@x" is not the one read there |
| PathAgreement.ReadsBackIffFound | sources/niLang/src/DataTable.cpp:1539-1558 | every value set at a property is the one read at the path exactly if the path, its names taken as patterns, leads to that property |
| PathAgreement.SetThenGet | sources/niLang/src/DataTable.cpp:1539-1558 | setting a value at a path that does not climb back and reading it there gives it, for every value exactly if the names are clear in the tree as it was |
| PathAgreement.NegatedIsNeverFound | sources/niLang/src/FilePattern.cpp:500-516 | a path with a name that begins with an exclamation mark leads nowhere, though it can be created |
| PathAgreement.RootPathLeadsBack | sources/niLang/src/DataTablePath.cpp:313-339 | the absolute path of a table or property with plain names, parsed and followed from any table of its tree, leads to it exactly if neither it nor a table above it has an earlier sibling whose name is the same but for case |
| TableWalks.GetRoot | sources/niLang/src/DataTable.cpp:439-446 | following parents ends at the root |
| TableWalks.NewVarFromPath | sources/niLang/src/DataTable.cpp:1539-1545 | it fails exactly when the path goes above the root or names no property; otherwise the path is created as above and the property of exactly that name has the value; in both cases nothing that was there changes but the value of that property |
| TableWalks.GetVarFromPath | sources/niLang/src/DataTable.cpp:1553-1558 | the value that the path, its names taken as patterns, leads to, or the default |
| Radix64.Encode | sources/niLang/src/Crypto_KDF.cpp:407-442 | the loop writes the digits of the bytes, six bits each, and nothing else |
| Radix64.Decode | sources/niLang/src/Crypto_KDF.cpp:375-404 | the loop gives the bytes the digits stand for, and fails exactly when one of the digits needed is missing or not in the alphabet |
| Radix64.Encoded | sources/niLang/src/Crypto_KDF.cpp:407-442 | n bytes take ceil(8n/6) digits |
| Radix64.DigitsAreAlphabet | sources/niLang/src/Crypto_KDF.cpp:354-375 | the digits are the places of their characters in the alphabet, and no other character is one |
| Radix64.DigitsAreNumber | sources/niLang/src/Crypto_KDF.cpp:408-442 | the digits write in base 64 the number that the bytes write in base 256, shifted by the unused bits of the last digit |
| Radix64.EncodeThenDecode | sources/niLang/src/Crypto_KDF.cpp:375-442 | decoding what was encoded, whatever follows it, gives the bytes |
| Radix64.DecodeThenEncode | sources/niLang/src/Crypto_KDF.cpp:375-442 | encoding what was decoded gives the digits back with the unused bits of the last one cleared |
| Blowfish.DecryptUndoesEncrypt | sources/niLang/src/Crypto_KDF.cpp:481-523 | for any sub-keys and boxes, the network with the sub-keys reversed undoes it |
| Blowfish.Bijection | sources/niLang/src/Crypto_KDF.cpp:503-523 | encryption is a bijection on pairs of words |
| Bcrypt.Context.Encrypt | sources/niLang/src/Crypto_KDF.cpp:503-523 | the sixteen unrolled rounds, which mix each sub-key in one round early, compute the textbook Feistel network |
| Bcrypt.Context.Body | sources/niLang/src/Crypto_KDF.cpp:525-541 | the two loops over sub-keys and boxes are one pass of 521 chained blocks without salt |
| Bcrypt.Context.SaltedBody | sources/niLang/src/Crypto_KDF.cpp:630-655 | the loop over the sub-keys and the loop over the boxes, unrolled twice, are one pass of 521 chained blocks with the salt |
| Bcrypt.EachWordOnce | sources/niLang/src/Crypto_KDF.cpp:630-655 | block j mixes in salt words 2j mod 4 and (2j+1) mod 4 and becomes words 2j and 2j+1 of the schedule, which no other block touches |
| Bcrypt.Context.MixKey | sources/niLang/src/Crypto_KDF.cpp:659-676 | the eighteen assignments mix each sub-key with its key word |
| Bcrypt.Context.MixSalt | sources/niLang/src/Crypto_KDF.cpp:680-701 | the eighteen assignments mix the sub-keys with the salt repeated |
| Bcrypt.Context.Expensive | sources/niLang/src/Crypto_KDF.cpp:657-704 | the loop is that many rounds, each a key expansion with the key and one with the salt |
| Bcrypt.SetKey | sources/niLang/src/Crypto_KDF.cpp:543-572 | the key words are gathered from the key and its NUL repeated for ever, and mixed into the initial sub-keys |
| Bcrypt.KeyWordPacksFour | sources/niLang/src/Crypto_KDF.cpp:543-572 | in the `2a` mode word i packs bytes 4i to 4i+3 of the repeated key, most significant first |
| Bcrypt.SignBugChangesKey | sources/niLang/src/Crypto_KDF.cpp:543-572 | the `2x` mode gives the key of the `2a` mode exactly if no group of four bytes has a byte above 127 after one that is not 255 |
| BcryptText.Crypt | sources/niLang/src/Crypto_KDF.cpp:574-737 | it succeeds exactly on a large enough buffer and an accepted setting, and then writes sixty characters and a NUL: the setting with its last salt digit made canonical, and 23 bytes of the hash computed by the schedule of Provos and Mazieres; otherwise nothing is written |
| BcryptText.AcceptedExactly | sources/niLang/src/Crypto_KDF.cpp:599-623 | the accepted settings are those with `$2a$` or `$2x$`, a cost of two digits from 04 to 31, a dollar sign and 22 digits of the alphabet, whatever follows |
| BcryptText.OctetsOfWords | sources/niLang/src/Crypto_KDF.cpp:444-460 | words come out as their bytes, most significant first |
| BcryptText.SaltOfOctets | sources/niLang/src/Crypto_KDF.cpp:617-624 | the salt words are those of the salt bytes, most significant byte first |
| BcryptText.MagicText | sources/niLang/src/Crypto_KDF.cpp:70-78 | the magic words are the text OrpheanBeholderScryDoubt |
| Bcrypt.NextWord | sources/niLang/src/Crypto_KDF.cpp:552-567 | one key word is gathered from four bytes, starting over after the NUL |
| BcryptText.FinalWords | sources/niLang/src/Crypto_KDF.cpp:706-719 | the six result words are three pairs of magic words encrypted 64 times |
| BcryptText.HashOf | sources/niLang/src/Crypto_KDF.cpp:626-719 | the key set, the salted pass, the costly loop and the last encryptions compute the hash of the reference schedule |
| BcryptText.WriteHash | sources/niLang/src/Crypto_KDF.cpp:721-729 | the text of the result, with the last salt digit made canonical, and its NUL |
| BcryptText.CryptedForm | sources/niLang/src/Crypto_KDF.cpp:719-729 | the salt digits of the result are those of the sixteen salt bytes |
| BcryptText.SameSaltSameHash | sources/niLang/src/Crypto_KDF.cpp:599-624 | settings with one prefix and one salt give one result, whatever spare bits or text follow |
| BcryptText.VerificationIsFixpoint | sources/niLang/src/Crypto_KDF.cpp:762-766 | hashing a key under a setting and again under the result gives the same result of sixty characters |
| BcryptText.GenSalt | sources/niLang/src/Crypto_KDF.cpp:739-760 | it succeeds exactly for 4 to 31 rounds and then writes the generated salt; otherwise the output is empty |
| BcryptText.GeneratedIsAccepted | sources/niLang/src/Crypto_KDF.cpp:739-760 | every generated salt is accepted and decodes to its rounds and its random bytes |
| ThreadPool.RunnableQueue.Add | sources/niLang/src/Concurrent.cpp:189-207 | refused when closed or full; else the runnable comes last and the event is set |
| ThreadPool.RunnableQueue.Invalidate | sources/niLang/src/Concurrent.cpp:183-187 | the queue is closed and emptied |
| ThreadPool.RunnableQueue.Poll | sources/niLang/src/Concurrent.cpp:223-243 | only the owner gets the first runnable, and the event is reset when the queue becomes empty |
| ThreadPool.RunnableQueue.StealPoll | sources/niLang/src/Concurrent.cpp:258-267 | a thief gets the first runnable and always resets the event |
| ThreadPool.NextConserves | sources/niLang/src/Concurrent.cpp:783-949 | every step of a client, owner, thief, shutdown or exiting worker moves runnables between queues, hands, executed and discarded without losing or copying one |
| ThreadPool.NextFifo | sources/niLang/src/Concurrent.cpp:183-267 | every step leaves each queue first in, first out |
| ThreadPool.RunKeepsInv | sources/niLang/src/Concurrent.cpp:783-949 | conservation, distinctness and order hold over every interleaving |
| ThreadPool.NothingLostNothingTwice | sources/niLang/src/Concurrent.cpp:783-949 | over every interleaving from the start, each accepted runnable is in exactly one place (queued, in hand, executed or discarded), so none runs twice, and each queue has given out a prefix of what it took |
| ThreadPool.NeglectsExactly | sources/niLang/src/Concurrent.cpp:783-949 | a queue with runnables has an owner that looks at it again, or a set event that its owner waits for or, without a shutdown, is going to wait for; every step keeps this, except exactly four: a steal that leaves runnables in the queue of another worker that has stopped looking, a worker dropping the runnable it holds at an immediate shutdown with others left, a shutdown over a non-empty queue whose worker is past its last look, and an addition accepted after a shutdown by such a queue or by that of a worker that ends |
| ThreadPool.NothingLeftUnseen | sources/niLang/src/Concurrent.cpp:783-949 | over any run from the start without such a step, shutdowns included, once no worker can move every accepted runnable has been executed or discarded, and all executed if no shutdown was immediate |
| ThreadPool.StalledTended | sources/niLang/src/Concurrent.cpp:783-949 | when no worker can move, all queues are tended exactly if all are empty |
| ThreadPool.StalledWorkers | sources/niLang/src/Concurrent.cpp:884-949 | when every worker is dead or waits for an event that is not set, only a client or a shutdown can take a step |
| ThreadPool.AbandonedForEver | sources/niLang/src/Concurrent.cpp:884-949 | what is in a queue once all workers are dead stays there, whatever happens later |
| PoolShutdown.ShutdownEnds | sources/niLang/src/Concurrent.cpp:884-949 | once there is a shutdown, over any run the workers together take at most five more steps for each runnable queued or with a client and eleven for each worker |
| PoolShutdown.WorkerCanMove | sources/niLang/src/Concurrent.cpp:884-949 | a worker has a step to take exactly if it is not dead and does not wait for an event that is not set |
| PoolShutdown.AtMostOneMore | sources/niLang/src/Concurrent.cpp:914-931 | after an immediate shutdown each worker runs at most one more runnable, and only if it was past its last look at the shutdown |
| PoolShutdown.IdleWorkersClose | sources/niLang/src/Concurrent.cpp:899-907 | a worker that waits at an immediate shutdown runs nothing more and ends with its queue closed and empty |
| PoolShutdown.LateAcceptances | sources/niLang/src/Concurrent.cpp:795-819 | after a shutdown only clients already past the test for it have a runnable accepted, one each |
| PoolRuns.PoolCanStall | sources/niLang/src/Concurrent.cpp:757-949 | from the start, with queues and victims chosen by cost and no shutdown, 24 steps with three submissions end with a runnable queued, both workers waiting and no event set |
| PoolRuns.ShutdownLosesAccepted | sources/niLang/src/Concurrent.cpp:821-949 | from the start, a run in which a runnable accepted before a graceful shutdown is left in its queue by a worker past its last look, with the pool terminated and no client left |
| PoolRuns.LateSubmission | sources/niLang/src/Concurrent.cpp:795-949 | from the start, a run in which a client is past the shutdown test ends with the pool terminated and its runnable accepted by a queue whose worker is dead |
| Messages.MessageQueue.Add | sources/niLang/src/Concurrent.cpp:350-369 | refused when closed or full; else the message comes last and the event is set |
| Messages.MessageQueue.Poll | sources/niLang/src/Concurrent.cpp:398-418 | only the owner gets the first message, and the event is reset when the queue becomes empty |
| Messages.MessageQueue.Peek | sources/niLang/src/Concurrent.cpp:376-388 | only the owner sees the first message |
| Messages.MessageQueue.Invalidate | sources/niLang/src/Concurrent.cpp:330-337 | the first call closes and empties the queue and takes its thread out of the registry; later calls do nothing |
| Messages.Concurrent.CreateMessageQueue | sources/niLang/src/Concurrent.cpp:1182-1192 | refused when the thread has a queue; the registry keeps each queue under its own thread |
| Messages.Concurrent.GetMessageQueue | sources/niLang/src/Concurrent.cpp:1194-1200 | the open queue of that thread, if there is one |
| Messages.Concurrent.Unregister | sources/niLang/src/Concurrent.cpp:1244-1249 | the entry under the queue's thread is removed |
| Messages.Concurrent.QueueMessage | sources/niLang/src/Concurrent.cpp:1226-1242 | only the queue of that thread is touched; without one the message is refused |
| Messages.Concurrent.Close | sources/niLang/src/Concurrent.cpp:1244-1249 | closing a registered queue takes out that queue and no other |
| Messages.MessagesAreSafe | sources/niLang/src/Concurrent.cpp:309-443 | over every interleaving of the two locks, an open queue has given out a prefix of what it accepted and holds the rest, its event is set exactly when it holds something, and it is the one queue registered for its thread |
| Messages.EachStepTouches | sources/niLang/src/Concurrent.cpp:350-418 | in every step only the thread of a queue takes a message from it, the first; only `Add` and sending to it bring one, at the end, while it is open and has room; only closing it closes it |
| Messages.SendsToAddressee | sources/niLang/src/Concurrent.cpp:1226-1242 | over every interleaving a message sent to a thread goes to a queue of that thread, and nowhere if it has none |
| Messages.NothingAfterClose | sources/niLang/src/Concurrent.cpp:330-337 | a closed queue accepts and gives out nothing, whatever happens later |
| Messages.StuckIsDeadlock | sources/niLang/src/Concurrent.cpp:1226-1249 | threads between their two locks are all unable to move exactly when one sends to a queue that another is closing |
| Messages.DeadlockIsForEver | sources/niLang/src/Concurrent.cpp:1226-1249 | such a deadlock never ends, and from then on no queue is created and no message sent |
| Messages.DeadlockIsReachable | sources/niLang/src/Concurrent.cpp:330-337 | three steps reach it |

## Left out

- Expression operators are arbitrary total functions on 64-bit patterns: rounding is not modelled, and
  neither are vectors, matrices, strings, time, URL, random, `Get`, `Set` and `Eval` operations.
- Folding.Op.Eval: every operand is present, so the test for a missing operand never fires; unary plus
  has no value, because the program sets up no result for it.
- Parsing.ProcessToken: works on tree values, so that two operations sharing an operand object while
  the tree is built are not modelled; every operator and function name is known to the context.
- ExprWriting.TextParses: the operator `!!` is left out, because the tokenizer splits it into two; so are
  escaped characters, and texts with a backquote, which takes all that follows it.
- Lexing.TokenizeExpr: decimal numbers, percentages and the conversion of integers to numbers are
  parameters of the context; the branches on one token are a function that the loop calls.
- EnumFlags.FlagsReadBack: assumes integers below 2^31 exact as numbers, and the bar their bitwise or.
- TextEvaluation.EvalText: atoms that are not numbers stand for literals, variables or constants of the
  context by a parameter; URLs and strings are such atoms.
- EnumFlags.GetEnumFlagsString: only the context's default enumeration is written.
- MemFile.DynamicMem: `Resize` and memory given from outside are not part of this model.
- BitIO.BitFile: single-bit masks are kept as bit numbers; only the little-endian path is modelled.
- PackedInts.SignedReadBack: leaves out the smallest 64-bit value, whose magnitude does not fit.
- PackedInts.ReadPackedU: states what is read where a packed value lies, not what other bits give.
- BlockFile.Decoder: the codec is a pair of functions of which decoding undoes encoding and encoding
  gives something; the base file is the memory file; the source holds whole blocks to its end; sizes
  fit in 32 bits; a size hint other than zero is the true size.
- BlockCopies.FileBufferEncode: source and destination are different memory files, and the destination
  is written at its end.
- TableObjects.DataTable.Copy: the flag Skip, merging child by child at equal places and copying without
  Clone are not modelled; sinks, reference counts and the test for cycles in `SetParent` are left out.
- TableFile.ReadString: reads single-byte characters; text encodings are left out, and strings are
  saved as their bytes. For strings of ASCII characters this is what the program does; characters from
  128 to 255 stand for the bytes of its UTF-8 text, whose sequences it may read back differently if they
  are malformed. A matrix cut off by the end of the file is filled with zeros, where the program
  leaves what was in memory.
- TableFile.Save: writes at the end of a file; the sizes that the program returns are not modelled.
- TableFile.Load: the zipped form is followed by nothing else in its file.
- TablePaths.ParsePath: UTF-8 decoding is left out.
- FilePatterns.SubMatch: characters are single bytes, of which only the ASCII letters have a case, as
  where `char` is signed; names hold no NUL; a set at the end of a name is taken not to match, where for
  a negated set the program steps over the end.
- TableWalks.DataTablePath.Evaluate: the branches on one operation are a method that the loop calls, as
  in `CreatePathInDataTable`.
- PathAgreement.CreatedIsFound: for a path that climbs back after a child, the condition is on the tree
  after the creation and contains that following the path leads somewhere, because steps that are taken
  back can fail.
- Radix64.Encode: the two tables are given by their ranges.
- BcryptText.Crypt: the initial tables are a parameter; the final erasing of memory is left out, and
  words are read from and written to bytes most significant first, which is what the copies and swaps
  come to on a little-endian machine.
- Bcrypt.Context.Encrypt: the table look-ups of a round are by index, as in the variant of the code
  that scales addresses.
- ThreadPool.RunKeepsInv: the event of the pool's termination and the exactness of its count of finished
  workers are left out; a victim and a queue for a new runnable may be any, which covers the costs the
  program compares.
- Messages.MessagesAreSafe: waiting, dispatching and the life time of queue objects are left out.
- The cooperative executor, futures, file chains, XML and JSON, logging and error texts are not part of
  this model.
