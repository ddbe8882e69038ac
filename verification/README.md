# A verified model of the file service

This project models the two parts of the repository that carry its logic, and proves properties of them.

* **The JSON engine** (`src/cJSON.c`): the parser, the two printers (one block per node, or one growing
  buffer), the in-place minifier, the transcoding of UTF-16 escapes to UTF-8, and the doubly linked trees of
  nodes with their list, duplicate, reference and delete operations.
* **Upload, records and clicks** (`src/usefull.c`, `src/data_use.c`, `src/data_cgi.c`): the slicing of a multipart
  body, the `||`-separated records of uploaded files, the replacing of `%2F` in file ids, and the list and the
  scores that uploads and clicks leave behind.

`dafny verify dfyconfig.toml` checks everything.

## How it is built

Text is a sequence of chars, ended in memory by `'\0'`; char codes stand for bytes. JSON values are the datatype
`JsonValue.Json`; `JsonValue.Render` is the text of a value in either format, defined by plain recursion.

* `Bits`, `Utf8`: C's bit operations on numbers, `pow2gt`, and the UTF-8 table of section 3 of RFC 3629.
* `Parsing` specifies the parser as functions on a text and a position. `Grammar` holds syntax trees with anything that
  may stand between tokens, those of sections 2 to 7 of RFC 8259 among them; `Completeness` proves that the parser takes
  every text that such a tree spells for the value that the tree denotes, `StringScans` says when the two passes over a
  string have a defined outcome, `Soundness` proves that no other text is taken, and `RoundTrip` that parsing undoes
  printing. `Meanings` and `Indentation` say in other words what the definitions that parser and printers share amount
  to: digits, escapes and numbers, and the layout of formatted text.
* `Nodes` is the memory: nodes with `next`, `prev` and `child`, the string blocks they own, and an allocator whose ghost
  set of live blocks makes a double free or a lost block impossible to prove right. The ghost datatype `Forest`
  describes a chain of siblings with everything below it. `NodeViews` describes what can be read of a tree,
  whoever owns its parts.
* `NodeParser` and `NodeDocuments` are the parser as it builds nodes, `PrintStrings`, `PrintAllocated`, `PrintBuffers` and
  `PrintBuffered` the two printers as they walk nodes, `Minify` the minifier on an array, with `MinifyTokens` and
  `MinifyDocuments` for what it does to a text; `PrintRoundTrips` puts them together.
* `NodeLists`, `NodeMembers`, `NodeSequences`, `NodeRuns` and `NodeCopies` are the operations on trees.
* `Search`, `Records`, `Uploads`, `Replacing` and `Service` are the file service.

Main results:

* Printing any tree with either printer, in either format, and from any initial buffer size, writes `Render` of its value
  (`PrintAllocated.Print`, `PrintBuffered.Print`), inside the sizes computed beforehand, and leaves no other block behind;
  parsing that text gives the value back (`RoundTrip.PrintParse`, `PrintRoundTrips.PrintAndParse`); minifying the
  formatted text in place leaves the unformatted one (`MinifyDocuments.MinifyPretty`, `PrintRoundTrips.PrintAndMinify`),
  and the formatted text is the unformatted one with white space inserted by a pass that only counts open brackets
  (`Indentation.FormattedText`).
* The parser accepts every RFC 8259 text and builds the value it denotes (`Completeness.ParsesRfc`). What it accepts
  altogether is described exactly, for texts in which no quote, backslash or terminator stands among the four chars
  behind a `\u`: such a C string is accepted if and only if it is a document in the sense of `Grammar`, and then with the
  value that the document denotes (`Soundness.ExactLanguage`).
* In such a string the outcome is undefined if and only if the text ends inside an escape (`StringScans.StringDefined`).
* For every text of this kind that does not end inside an escape, a failed parse leaves no block behind and a successful
  one returns a tree that owns every block that is new (`NodeDocuments.ParseComplete`) and can be printed again
  (`PrintRoundTrips.ParseAndPrint`); when tree and print are deleted, the allocator is as before
  (`PrintRoundTrips.Reformat`).
* After any run of list operations a container's chain is well formed, its contents are those of a sequence, and the only
  blocks freed are those of replaced items (`NodeRuns.Run`, `NodeSequences.Linked`).
* The record codec recovers all six fields exactly when a condition on the fields holds that can be checked beforehand
  (`Records.RoundTrip`); the data of an upload is extracted exactly when it has no run of nine dashes
  (`Uploads.Extraction`); an id survives escaping exactly when it does not contain `%2F` (`Replacing.Recovered`); and over
  any run of uploads and clicks every page of the list shows the arguments of the uploads, newest first, with the number
  of clicks (`Service.ServeAndShow`, `Service.ShownClicks`).

Where the code differs from what one would expect, the model follows the code:

* With a buffer, `print_value` returns a wrong pointer exactly for a formatted object with members whose text does not
  start at position `depth`, because the variable that remembers where the text starts is reused as a counter
  (`PrintBuffered.PointerRight`, and `PrintBuffered.WrongPointer` for an example). The callers inside the printer do not
  use it, and at the root both are 0.
* `/*/` is taken for a whole block comment by the minifier, so a comment whose body starts with `/` is not removed as
  one (`MinifyTokens.BlockCommentTurn`, `MinifyTokens.ShortBlockComment`).
* `\u0000` and unpaired surrogates denote nothing, and an escape after a high surrogate is consumed with it
  (`Escapes.NothingDenoted`).
* The parser also takes numbers with a zero before their digits or without digits (`Completeness.BeyondRfc`), any char
  after a backslash, any four chars after `\u`, any char up to the space for white space, and a string at the end without
  its closing quote (`Grammar.CharOk`, `Soundness.IsDocument`).
* The two passes over a string look for escapes in different ways. A text that ends inside an escape has no defined
  outcome (`StringScans.CutString`); with a quote among the four chars behind a `\u` the passes stop at different quotes,
  and the outcome may be defined or not (`StringScans.QuoteInDigits`).
* The closing brace of an empty object is formatted one tab further left than that of an object with members
  (`Indentation.FormattedText`).
* `print_string_ptr` dereferences its argument before it tests it for NULL; a string item without a string and a member
  without a name cannot be printed (`NodeViews.Ready`).
* `cJSON_ReplaceItemInObject` loses a name that the new item already had (`NodeMembers.ReplaceItemInObject`).
* A page that begins at the head of the list is one entry short, if there are as many as were asked for, because
  `rop_range_list` takes the index of the last entry for the number of entries (`Service.PageWhole`).
* The test of the field number in `get_value_by_redis` can never fail; numbers outside 1 to 6 leave the buffer
  as it is.

## Model

| member | source | states |
|---|---|---|
| Bits.Pow2gt | src/cJSON.c:117 | for 1 <= x <= 2^30 the smeared result is the least power of two that is not below x |
| Bits.SmearStep | src/cJSON.c:117 | one smearing step doubles the run of leading ones and keeps the length of the number |
| Utf8.DecodeEncode | src/cJSON.c:229-237 | decoding the UTF-8 table's bytes of a scalar value returns that scalar value |
| Utf8.PairOnto | src/cJSON.c:221-227 | every code point above 0xFFFF is the value of exactly one surrogate pair |
| Utf8.PairBits | src/cJSON.c:226 | the masks and shifts compute the code point of the pair |
| Utf8.Continuation | src/cJSON.c:232-234 | or-ing 0x80 and masking with 0xBF gives a continuation byte with the low six bits |
| Utf8.FirstByte | src/cJSON.c:235 | or-ing the first byte mark adds it, for what is left of a code point of that length |
| Escapes.Transcodes | src/cJSON.c:216-238 | every code point but 0, escaped in any letter case or as a pair, parses to its UTF-8 bytes, which decode to it |
| Escapes.NothingDenoted | src/cJSON.c:216-227 | U+0000, a low surrogate and four chars that are not all hex digits add nothing to the parsed string, and neither does a high surrogate together with an escape that is not its other half, or without an escape after it |
| Escapes.CanBeEscaped | src/cJSON.c:177-187 | every scalar value has such an escape, in upper and in lower case |
| Completeness.ScansNumber | src/cJSON.c:96-115 | on a number token not followed by a char that could belong to it, exactly the token is consumed and the accumulated value is exactly what it denotes |
| Completeness.ParsesToken | src/cJSON.c:192-249 | on a string token that ends in a quote or with the text, both passes stop at that place, and the second writes the denoted chars, at most as many as the first counted |
| Completeness.ParsesString | src/cJSON.c:192-249 | on every string token both passes stop at the closing quote, and the second writes the denoted chars, at most as many as the first counted |
| Completeness.MeasuresChars | src/cJSON.c:197 | the length pass counts one turn for a char or short escape and five for a `\u` escape, and stops where the token ends |
| Completeness.DecodesChars | src/cJSON.c:202-243 | the decode pass yields what the token denotes, with pairs, unpaired surrogates and `\u0000` as coded |
| Completeness.ParsesValue | src/cJSON.c:357-369 | for every syntax tree with white space between its tokens, the parser stops right after its text with the value it denotes |
| Completeness.ParsesArray | src/cJSON.c:406-431 | the same for the items of an array up to the bracket |
| Completeness.ParsesObject | src/cJSON.c:514-547 | the same for the fields of an object up to the brace |
| Completeness.ParsesDocument | src/cJSON.c:323-338 | a whole document surrounded by white space is accepted, with and without the check for the terminator |
| Completeness.ParsesRfc | src/cJSON.c:323-338 | every text of sections 2 to 7 of RFC 8259 is accepted with the value it denotes |
| Completeness.BeyondRfc | src/cJSON.c:100-102 | two numbers that RFC 8259 does not have are accepted, with these values |
| Meanings.DigitTable | src/cJSON.c:102-106 | exactly the chars 0 to 9 are taken for digits, each with its value |
| Meanings.HexTable | src/cJSON.c:177-187 | exactly the hex digits of either letter case are taken for hex digits, each with its value |
| Meanings.RawChars | src/cJSON.c:205 | an unescaped char, a control char too, stands for itself in the parsed string |
| Meanings.ShortEscapes | src/cJSON.c:208-239 | behind a backslash b, f, n, r and t stand for U+0008, U+000C, newline, carriage return and tab, and every other char for itself |
| Meanings.WholeMeaning | src/cJSON.c:98-109 | times ten to the number of its fraction digits, a number without exponent is the integer that its digits write, with its sign |
| Meanings.ExponentMeaning | src/cJSON.c:104-109 | an exponent multiplies by a power of ten, or divides by it when its sign is a minus |
| StringScans.DecodesUncut | src/cJSON.c:202-243 | on every text, the decode pass passes the terminator exactly when the text ends inside an escape |
| StringScans.StringDefined | src/cJSON.c:192-249 | in a string without quote, backslash or terminator among the four chars behind a `\u` the outcome is undefined exactly when the text ends inside an escape; in every string that does so it is |
| StringScans.Elements | src/cJSON.c:197-243 | a string of that kind that does not end inside an escape is made of the grammar's elements |
| StringScans.PastChars | src/cJSON.c:197-243 | a string that is made of the grammar's elements is of that kind |
| StringScans.CutString | src/cJSON.c:197-216 | every string that ends behind a backslash, or before the fourth char behind a `\u`, has no defined outcome |
| StringScans.QuoteInDigits | src/cJSON.c:197-219 | two strings with a quote among the four chars: in one the second pass writes more than the first counted, the other parses to one char |
| Soundness.Defined | src/cJSON.c:323-338 | on a text with such strings only, none of which ends inside an escape, no read passes the terminator and no write passes the block |
| Soundness.StringToken | src/cJSON.c:192-249 | in a text with such strings only, what is parsed as a string is a string token, up to its closing quote or the end of the text, and denotes the chars returned |
| Soundness.NumberToken | src/cJSON.c:96-115 | what is scanned as a number is a number token and denotes the value returned |
| Soundness.Derives | src/cJSON.c:357-369 | in such a text whatever is parsed as a value is the text of a syntax tree that denotes the value returned |
| Soundness.ExactLanguage | src/cJSON.c:323-338 | the documents are exactly the C strings with such strings only that are accepted, each with the value it denotes; of those that do not end inside an escape all others are rejected |
| RoundTrip.TreeText | src/cJSON.c:372-402 | the printed text of a value is the text of a syntax tree |
| RoundTrip.TreeMeans | src/cJSON.c:372-402 | that tree is one of RFC 8259 and denotes the value that was printed |
| RoundTrip.TreeGaps | src/cJSON.c:372-402 | between its tokens stands nothing but white space in the sense of RFC 8259 |
| RoundTrip.PrintParse | src/cJSON.c:339-343 | parsing the formatted or unformatted print of any printable value gives the value back and consumes the whole text |
| RoundTrip.PrintInjective | src/cJSON.c:342-343 | two values with the same print are the same value |
| Indentation.FormattedText | src/cJSON.c:434-658 | the formatted text is the unformatted text with a newline and as many tabs as brackets are open at the start of every member and before every closing brace (one tab less in an empty object), a tab behind every colon and a space behind every comma of an array |
| Meanings.EscapeTable | src/cJSON.c:284-302 | a char is printed as itself, as the short escape that denotes it, or as four hex digits in lower case that have its value |
| PrintStrings.NothingToEscape | src/cJSON.c:256-269 | a string without special chars is its own escaped form, so the short path writes what the escaping path would |
| PrintStrings.NeedsEscape | src/cJSON.c:256 | the flag is set exactly when some char has to be escaped |
| PrintStrings.EscapedLength | src/cJSON.c:278 | the counted length is exactly that of the escaped string |
| PrintStrings.Room | src/cJSON.c:256-282 | what is reserved is exactly the quoted string and its terminator, on both paths |
| PrintStrings.WriteQuoted | src/cJSON.c:264-306 | exactly the quoted string and a terminator are written, after what stood there, and nothing behind them |
| PrintStrings.WriteEscaped | src/cJSON.c:284-304 | the escaping loop writes the escaped string |
| PrintStrings.WriteEscape | src/cJSON.c:292-302 | the right escape letter or `u00XX` for every special char |
| PrintStrings.SignedLength | src/cJSON.c:157-162 | the digits of every int32 fit in the 21 chars reserved |
| PrintBuffers.PrintBuffer.Ensure | src/cJSON.c:121-136 | there is room afterwards, the old contents are kept, and a new length is the least power of two that suffices, at least double after the first growth; the old buffer is freed |
| PrintBuffers.PrintBuffer.Update | src/cJSON.c:138-144 | the offset it returns is where the emitted text ends |
| PrintBuffers.AmortisedGrowth | src/cJSON.c:121-136 | over any run of requests the chars copied are fewer than the final length, and lengths after the first growth at least double |
| PrintBuffered.PrintValue | src/cJSON.c:372-388 | the text of the item follows what was emitted before, terminated, with the offset inside it, and the returned pointer is where `OutIndex` says |
| PrintBuffered.PointerRight | src/cJSON.c:550-607 | the returned pointer is wrong exactly for a formatted object with members whose text does not start at position `depth`, as that of a member never does |
| PrintBuffered.WrongPointer | src/cJSON.c:550-607 | the pointer for the inner of two nested objects is an example |
| PrintBuffered.PrintNumber | src/cJSON.c:147-162 | an int32 is written in decimal within the room reserved |
| PrintBuffered.PrintString | src/cJSON.c:252-307 | the quoted string follows what was emitted before |
| PrintBuffered.PrintArray | src/cJSON.c:434-467 | the text of the array follows what was emitted, whatever growth its children cause, and the pointer is right |
| PrintBuffered.PrintElems | src/cJSON.c:458-465 | the loop over the children emits the elements with their separators |
| PrintBuffered.PrintObject | src/cJSON.c:550-607 | the text of the object follows what was emitted; the pointer is the reused counter when it is formatted |
| PrintBuffered.PrintMembers | src/cJSON.c:576-602 | the loop over the members emits tabs, names, colons, values and separators |
| PrintBuffered.Print | src/cJSON.c:345-353 | for every initial size of at least 1 and both formats the returned pointer is the start of a buffer holding the specified text, and the buffer is the only block that is new |
| PrintAllocated.PrintValue | src/cJSON.c:389-402 | the only new block holds the specified text of the item |
| PrintAllocated.PrintNumber | src/cJSON.c:147-162 | a new block of 2 or 21 chars holds the decimal text |
| PrintAllocated.PrintString | src/cJSON.c:252-309 | a new block of exactly the computed size holds the quoted string |
| PrintAllocated.PrintEntries | src/cJSON.c:471-483 | every child's text is in its block, these blocks and the array of pointers are all that is new, and the summed length bounds the whole array with brackets and terminator |
| PrintAllocated.ComposeElems | src/cJSON.c:501-506 | copying the blocks with separators writes exactly the elements' text, and every one of them is freed |
| PrintAllocated.PrintArray | src/cJSON.c:434-511 | a block of the summed length holds the specified text of the array; all other blocks are freed |
| PrintAllocated.PrintMembers | src/cJSON.c:610-626 | names and values are in their blocks, these and the two arrays of pointers are all that is new, and the summed length bounds the whole object |
| PrintAllocated.ComposeMembers | src/cJSON.c:642-652 | copying the blocks with tabs, colons and separators writes exactly the members' text, and every one of them is freed |
| PrintAllocated.PrintObject | src/cJSON.c:550-658 | a block of the computed size holds the specified text of the object, empty or not; all other blocks are freed |
| PrintAllocated.Print | src/cJSON.c:342-343 | both print functions return the specified text in the only block that is new |
| PrintRoundTrips.PrintTwice | src/cJSON.c:342-353 | the two printers return the same text, each in the only block that is new |
| PrintRoundTrips.PrintAndParse | src/cJSON.c:323-343 | printing a tree and parsing the text gives a new, separately owned tree with the same value, which can be printed again |
| PrintRoundTrips.ParseAndPrint | src/cJSON.c:323-343 | parsing a text whose value has int32 numbers only and printing the result writes the text of its value; all that is new is the tree and the print |
| PrintRoundTrips.Reformat | src/cJSON.c:323-343 | parsing, printing, deleting the tree and freeing the print leaves the allocator as it was and yields the text of the value |
| PrintRoundTrips.PrintAndMinify | src/cJSON.c:735-750 | minifying a formatted print in place leaves the unformatted print |
| Minify.Minify | src/cJSON.c:735-750 | in place, the text becomes its minified form, terminated, never longer, with nothing behind the old terminator touched |
| Minify.Advance | src/cJSON.c:740-747 | one turn copies and skips what the specification says, the write index never passing the read index |
| MinifyTokens.MinifyLexemes | src/cJSON.c:735-750 | for any sequence of tokens, white space and comments, the result is the tokens and nothing else; a slash that opens no comment is part of its token |
| MinifyTokens.BlockCommentTurn | src/cJSON.c:745 | a block comment is removed as a whole exactly when its body holds no end mark and does not start with `/` |
| MinifyTokens.ShortBlockComment | src/cJSON.c:745 | of the comment `/*/x*/` all but its first three chars are kept |
| MinifyTokens.MinifyIdempotent | src/cJSON.c:735-750 | minifying the result again changes nothing |
| MinifyDocuments.MinifyDocument | src/cJSON.c:735-750 | a decorated JSON document becomes the document without anything between its tokens |
| MinifyDocuments.MinifyRfc | src/cJSON.c:735-750 | every text of sections 2 to 7 of RFC 8259 becomes the document without anything between its tokens |
| MinifyDocuments.MinifyMeans | src/cJSON.c:735-750 | parsing the minified text gives the value of the document |
| MinifyDocuments.MinifyPretty | src/cJSON.c:735-750 | minifying the formatted print of any value gives its unformatted print |
| Nodes.Heap.StrDup | src/cJSON.c:49-58 | a new live block holds the same C string |
| Nodes.Heap.NewItem | src/cJSON.c:73-78 | a new live node with every field zero |
| Nodes.SuffixObject | src/cJSON.c:666 | the chain up to prev is linked to the item, both ways |
| Nodes.Delete | src/cJSON.c:81-93 | every block of the chain is freed exactly once and no other; what references point to stays live |
| Nodes.DeleteItem | src/cJSON.c:86-90 | the same for one node |
| NodeParser.ParseNumber | src/cJSON.c:96-115 | the item becomes a number with the specified value, its int is the value truncated toward zero, and parsing goes on where specified |
| NodeParser.ParseHex4 | src/cJSON.c:177-187 | four hex digits in either case, or 0 |
| NodeParser.MeasureString | src/cJSON.c:197 | the length pass as specified |
| NodeParser.WriteUtf8 | src/cJSON.c:229-237 | the bytes written backwards by shifting and masking are the UTF-8 table's |
| NodeParser.DecodeUnicode | src/cJSON.c:217-238 | one `\u` escape, or a pair of them, appends exactly the specified bytes |
| NodeParser.DecodeString | src/cJSON.c:202-244 | the decode pass writes the specified chars and a terminator inside the block measured before |
| NodeParser.ParseStringInto | src/cJSON.c:192-249 | on success the item points to one new block with the decoded string; on failure nothing is allocated |
| NodeParser.ParseValueInto | src/cJSON.c:357-369 | success, end and value as specified, with the int, double and string that belong to a value of its kind; whether or not parsing succeeds, the item owns exactly the blocks that are new |
| NodeParser.ParseArrayInto | src/cJSON.c:406-431 | the same for an array |
| NodeParser.ParseChildren | src/cJSON.c:414-430 | the loop links the elements below the item, owned and in order, also when it stops half-way |
| NodeParser.ParseObjectInto | src/cJSON.c:514-547 | the same for an object |
| NodeParser.ParseNamedChildren | src/cJSON.c:522-546 | the loop links the named members below the item, owned and in order, also when it stops half-way |
| NodeDocuments.ParseWithOpts | src/cJSON.c:323-338 | wherever the specified outcome is not Undefined, a failed parse leaves no block allocated; a successful one returns a well-formed tree with the specified value that owns every new block once, with names in the members of objects only, strings in strings only, and the ints that belong to the values |
| NodeDocuments.ParseComplete | src/cJSON.c:323-338 | the same for every text with strings as in `Soundness.Defined`; with the check for the terminator the parse succeeds exactly on documents |
| NodeDocuments.ParseThenDelete | src/cJSON.c:81-93 | parsing a text whose outcome is not Undefined and deleting the result leaves the allocator as it was |
| NodeDocuments.ParseCompleteThenDelete | src/cJSON.c:81-93 | the same for every text with strings as in `Soundness.Defined` |
| NodeViews.ArraySize | src/cJSON.c:661 | the number of children |
| NodeViews.PlainShows | src/cJSON.c:710-733 | a well-formed chain without references can be walked along child and next |
| NodeLists.Walk | src/cJSON.c:662 | the walk stops at the item with the index, negative indices counting as 0, or at NULL |
| NodeSequences.WalkStops | src/cJSON.c:662 | where that is in the sequence of children |
| NodeLists.AddItemToArray | src/cJSON.c:671 | the chain is extended by the item; NULL changes nothing |
| NodeLists.InsertItemInArray | src/cJSON.c:684-685 | the item is linked before the one at the index, or at the end |
| NodeLists.DetachItemFromArray | src/cJSON.c:677-678 | the item at the index is unlinked and returned whole; the others stay chained; NULL when there is none |
| NodeLists.ReplaceItemInArray | src/cJSON.c:686-688 | the new item takes the place of the old one, of which every block is freed; without one nothing changes |
| NodeMembers.StrCaseCmp | src/cJSON.c:39-44 | 0 exactly for names equal up to the case of ASCII letters, NULL being equal to NULL only; otherwise 1 if one is NULL, and else the difference of the first chars that differ, in lower case |
| NodeMembers.LowerSame | src/cJSON.c:42-43 | two chars are equal in lower case exactly if they are equal or the same ASCII letter |
| NodeMembers.FirstWithName | src/cJSON.c:663 | the position searched for is that of the first member with the name |
| NodeMembers.GetObjectItem | src/cJSON.c:663 | the first member with the name, or NULL |
| NodeMembers.DetachItemFromObject | src/cJSON.c:680 | exactly the member that `cJSON_GetObjectItem` returns is removed |
| NodeMembers.AddItemToObject | src/cJSON.c:672 | the item is appended under a copy of the name; its old name is freed |
| NodeMembers.ReplaceItemInObject | src/cJSON.c:689 | the new item, under a copy of the name, takes the place of the first member with it; a name it had before stays allocated, owned by nothing |
| NodeSequences.InsertedEntries | src/cJSON.c:684-685 | the contents are those of inserting in a sequence |
| NodeSequences.AppendedEntries | src/cJSON.c:671 | the contents are those of appending to a sequence |
| NodeSequences.RemovedEntries | src/cJSON.c:677-678 | the contents are those of removing from a sequence |
| NodeSequences.ReplacedEntries | src/cJSON.c:686-688 | the contents are those of updating a sequence |
| NodeSequences.Linked | src/cJSON.c:666-688 | next and prev are mutual inverses along the children, the head has no prev, the last no next, and no node occurs twice |
| NodeSequences.PutBack | src/cJSON.c:677-685 | removing an item and inserting it at its position gives the old chain |
| NodeSequences.DetachAndInsert | src/cJSON.c:677-685 | detaching an item and inserting it again restores every link of the chain |
| NodeRuns.Begins | src/cJSON.c:671-688 | an empty container and any live items that are in no chain and share no block are where a run may begin |
| NodeRuns.AfterContents | src/cJSON.c:671-688 | each operation on a container and the items held by the caller acts on sequences as append, insert, remove or update |
| NodeRuns.Run | src/cJSON.c:671-688 | after any run of operations the chain is well formed with the contents of the sequence, and what is no longer live is what was replaced |
| NodeCopies.CreateReference | src/cJSON.c:668 | the reference shares child, string and numbers, owns only itself and has no name |
| NodeCopies.ReferenceShows | src/cJSON.c:668 | a reference shows the value and children of its item |
| NodeCopies.AddItemReferenceToArray | src/cJSON.c:674 | a new reference is appended; only its node is allocated |
| NodeCopies.ReferToAll | src/cJSON.c:81-93 | making and deleting an array of references to any items leaves the allocator and all the items as they were |
| NodeCopies.CopyValues | src/cJSON.c:708-733 | a copy has the value of its original and contains no reference |
| NodeCopies.Duplicate | src/cJSON.c:708-733 | a new tree of new blocks only, well formed at every level, not a reference, that copies all that the original shows, or only the item itself |
| NodeCopies.AttachChild | src/cJSON.c:727-728 | the new child becomes the last one of a well-formed chain |
| NodeCopies.DuplicateAndDelete | src/cJSON.c:708-733 | after the original is deleted, references in it or not, the copy is intact, with the same value |
| NodeCopies.DuplicateAndDiscard | src/cJSON.c:708-733 | after the copy is deleted everything is as before |
| Search.MemStr | src/usefull.c:178-204 | the leftmost occurrence inside the length, or NULL when there is none, when the length is not positive or the key is empty |
| Records.RoundTrip | src/data_use.c:37-148 | all six fields of a record decode to themselves exactly when the record is separable and fits |
| Records.LongFields | src/data_use.c:37-148 | a field of a separable record that is too long is cut to the maximum, but for the kind when there is no user |
| Records.BarLost | src/data_use.c:39-46 | an id that ends in a bar loses it |
| Records.TidySeparable | src/data_use.c:37-148 | fields without two bars in a row and without a bar at their ends, all but the user not empty, make a separable record |
| Records.BarsMeanNoUser | src/data_use.c:77-78 | in such a record four bars in a row occur exactly when the user is empty |
| Records.FirstThree | src/data_use.c:39-75 | the first three fields are recovered exactly when none has two bars in a row or a bar at its end and all fit |
| Records.WithoutUser | src/data_use.c:76-136 | without a user the other fields are recovered exactly when no four bars begin before the end of the time |
| Records.WithUser | src/data_use.c:90-148 | with a user they are recovered exactly when time and user are clean, there is a time, and the kind completes no four bars |
| Records.NothingBetween | src/data_use.c:76-89 | with an empty URL or name the length of the time is negative |
| Records.WriteRecord | src/usefull.c:293-322 | the zeroed buffer ends up holding id, URL, name, time, user and kind, in this order, with two bars between them |
| Records.Separators | src/data_use.c:90-100 | the loop over n separators ends at the n-th and remembers where the last field begins |
| Records.GetValueByRedis | src/data_use.c:11-153 | a zeroed buffer ends up holding the specified field |
| Records.WriteAndRead | src/usefull.c:293-322 | writing a separable record and reading a field gives the field, and any other number gives nothing |
| Uploads.Extraction | src/usefull.c:90-137 | for every body of the expected shape the extracted name is the name, and the data is the data exactly when it has no nine dashes in a row |
| Uploads.DataEnd | src/usefull.c:133-137 | the search stops at the delimiter exactly when the data has no nine dashes in a row, and before it otherwise |
| Uploads.UploadFile | src/usefull.c:90-149 | the buffer ends up holding the extracted name, and what is written to the file is the extracted data |
| Uploads.UploadWellFormed | src/usefull.c:90-149 | for every body of the expected shape whose data has no nine dashes in a row, the buffer ends up holding the name and the data is written |
| Uploads.DashesLost | src/usefull.c:133-137 | for data of nine dashes the length of the data is negative |
| Replacing.StrReplace | src/data_use.c:343-400 | every occurrence of the key, from the left, is replaced, cut to the old length |
| Replacing.UnescapeEscape | src/data_cgi.c:78 | escaping the slashes of a text leaves none in it and makes no difference to what is unescaped |
| Replacing.Recovered | src/data_cgi.c:78 | an id is recovered from its escaped form exactly when it does not contain `%2F` |
| Replacing.EscapeNotRecovered | src/data_cgi.c:78 | the id `%2F` comes out as a slash |
| Service.WriteRedis | src/usefull.c:291-328 | the record is put in front of the list and the score of its id incremented |
| Service.Increase | src/data_cgi.c:70-88 | the score of the unescaped id is incremented |
| Service.Serve | src/data_cgi.c:45-91 | any run of uploads and clicks leaves the records of the uploads, newest first, and the scores counted |
| Service.ScoreCounts | src/data_use.c:263-264 | a score is the number of uploads of the id and of clicks that come out as the id, or -1 when there are none |
| Service.BoundedStorable | src/upload.c:46-50 | arguments that fit the buffers of an upload make a record that fits its buffer and is not cut when it is decoded |
| Service.Shown | src/data_use.c:214-264 | for such arguments each entry shows the arguments of its upload, newest first, within the buffers that receive them, and its pv counts clicks and further uploads |
| Service.ShownClicks | src/data_use.c:263-264 | for a file uploaded once, and clicked ids without `%2F`, pv is the number of clicks on it |
| Service.ShowEntry | src/data_use.c:217-264 | the five fields decoded from an entry, and the score of its id less one |
| Service.PageCovers | src/redis_op.c:897-911 | a page shows the k-th entry asked for exactly if there is one and it is not the last one asked for from the head of the list |
| Service.PageWhole | src/redis_op.c:897-911 | all entries asked for are shown exactly when the page does not begin at the head of the list, or the list is shorter than what was asked for |
| Service.ShowPage | src/data_use.c:199-264 | a page shows exactly these entries |
| Service.ServeAndShow | src/data_use.c:199-264 | after any run of uploads and clicks a page shows the latest uploads, as many as are asked for and there, but for that one, newest first, each with its clicks and further uploads |

## Left out

- PrintBuffered.PrintNumber: numbers other than int32 are not printed by the model, because their text is decided by the C library's formatting of doubles.
- PrintAllocated.PrintNumber: the same.
- PrintRoundTrips.ParseAndPrint: the same.
- Completeness.ScansNumber: over exact reals; the rounding of doubles and of `pow`, and the overflow of the exponent's int, are not modelled.
- NodeParser.ParseNumber: the same; the cast to `valueint` truncates without bounds, where in C a double outside the range of int has no defined cast.
- NodeDocuments.ParseWithOpts: texts at which the specification says Undefined are outside the precondition. These are texts that end inside an escape, and texts with a quote, backslash or terminator among the four chars behind a `\u` where the second pass over a string writes more than the first one counted; `NodeDocuments.ParseComplete` has a condition on the text instead.
- NodeDocuments.ParseThenDelete: the same.
- NodeDocuments.ParseComplete: texts with a quote, backslash or terminator among the four chars behind a `\u` are outside the precondition; the outcome of some of them is defined.
- NodeDocuments.ParseCompleteThenDelete: the same.
- Soundness.ExactLanguage: the same.
- Soundness.Defined: one direction only. That a text ends inside an escape matters only if the parser gets there; for a string that it does parse, `StringScans.StringDefined` has both directions.
- Minify.Minify: unterminated literals and block comments, at which the source reads past the terminator, are outside the precondition.
- Nodes.Delete: items whose name is constant (`cJSON_StringIsConst`) are not modelled; `cJSON_AddItemToObject` and `cJSON_Duplicate` do not respect that bit.
- Nodes.DeleteItem: the same.
- NodeCopies.CreateReference: the same.
- NodeCopies.Duplicate: the same.
- PrintBuffers.PrintBuffer.Ensure: sizes are at most 2^30; beyond that `pow2gt` leaves the range of int, which C does not define.
- Replacing.StrReplace: the work buffer is a growing text that starts empty; its size and its uninitialised contents in the source are not modelled. An empty key, for which the source does not end, is outside the precondition.
- Records.GetValueByRedis: called only where the field can be taken, that is where no search fails and no length is negative, and with room in the buffer.
- Uploads.UploadFile: called only where all searches succeed; writing the file is its result.
- Service.Serve: LPUSH, LRANGE, ZINCRBY and ZSCORE are steps on a list and a map; connections and the query-string functions are not modelled.
- Service.ShowPage: pages begin at a position that is not negative and ask for at least one entry.
- Failing allocations, allocation hooks and `cJSON_GetErrorPtr`.
- Text passed to the parser is a value, not an array; strings that printers and copies read are arrays.
- Nesting is not limited by a stack.
- The `CreateXxxArray` functions, the other constructors, and the delete-by-index and add-reference-by-name functions: compositions of what is modelled.
- The rest of `read_redis_to_json` (picture URLs, building the reply), `trim_space`, `get_file_suffix`, `get_ip_url`: short and independent of the above.
- FastCGI, FastDFS, redis, logging, environment, processes and scripts.
