# mod_ruby: a verified model

mod_ruby embeds Ruby in the Apache web server. This project models its four pieces of real logic in Dafny and proves
what each of them promises, or exactly when it does.

**The RHTML compiler** (`src/rhtml.lex`, `src/rhtml.cpp`, `replace` in `src/util.hpp`). A flex scanner drives a class
that puts a Ruby program together line by line.
`FlexRules` has the rule table as flex reads it (longest match, first rule on ties) and `RhtmlScanner` the function it
amounts to; `RhtmlParser.Parser` is the class; `RhtmlOutput` says what its methods do to its fields. Two independent
definitions meet in the main theorem: `RhtmlTemplate` reads the events (character printed, code run, expression shown)
directly off a template, and `RubyReader` reads them off the emitted program, character by character.
`RhtmlTheorems.CompilePreservesMeaning` says that they agree, and `RhtmlQuotes.CommentsExact` says exactly for which
documents. Each output glyph remembers whether it was made up by the parser or copied from the template, and from which
line; the source's own strings are the glyphs' characters. Copied code is opaque: from its first character that is not
idle on (blanks, line ends and semicolons are idle), a copied run is taken to be one self-delimiting fragment. Where a
statement below says that a program does not do what a document says, it means this reading of it: what the program
does as a sequence of these events, with every copied fragment standing for itself, or no such sequence at all.

**MD5** (`src/md5.h`, `src/md5.cpp`). `Md5Spec` states sections 3.1 to 3.5 of RFC 1321 as plain functions.
`Md5Transform` has the 64 unrolled steps, `Md5Memory` the byte reversal and the native word loads for both byte orders,
`Md5Streaming` the split bit counter and the padding, and `Md5.Hash` the class with `init`, `update` and `final`.
`Md5Vectors` says what the standard's definitions come to in bits and bytes, up to the digest of "abc".

**Forms and queries** (`src/util.cpp`, `src/request.cpp`, `src/apr_table.cpp`). `UrlCodec` has `hex2int`, the in-place
`url_decode` and `url_encode`; `AprTable` an APR table as an ordered list of entries with keys compared without case,
with `join` and the iterator; `Query` has `split` and `parse_query_string`; `RequestBody` the body readers over a client
that hands out any 1 to n bytes at a time. A string's characters are bytes. Whether a plain `char` is signed is a
parameter.

**Configuration and handlers** (`src/mod_ruby.c`, `src/module.cpp`, `src/module.hpp`). `Directives` has the directives
that declare handlers, `Configuration` the folding of all layers into the notes table with any order of walking a hash,
`Precedence` the closed form of the result and what the second phase of a request changes, `HandlerResolution` which
handlers the two phases find, `ResolutionExamples` two configurations for which the second phase matters, and `HandlerCache` the cache of handler objects over a whole process.

`RhtmlLaws`, `UrlLaws`, `QueryLaws` and `PrecedenceLaws` say what the definitions mean case by case, with the characters
and names written out.

## Where the code and its documentation or intent part ways

- Comments are not dropped. Their characters are put on the line raw and are run as code, unless they are idle; `--%>`
  does not tell the parser that the comment is over; and a comment closed by `%>` in the middle of a line leaves the
  parser in text with the literal closed, so that from there on opening and closing quotes change places
  (`RhtmlComments.CommentTextChangesMeaning`, `RhtmlQuotes.CommentInsideLine`, `RhtmlQuotes.LineEndAfterDashes`).
  `RhtmlQuotes.CommentsExact` is the exact condition.
- Text after the last line feed never reaches the compiled program (`RhtmlTheorems.TextIsFlushedPart`).
  `RhtmlTails.TailCosts` says when it is missed.
- Line ends inside `<%= %>` are joined, so the line numbers after them are off (`RhtmlLines.LineFidelity`).
- `url_encode` prints with `%2X`: bytes below 0x10 get a space, and where `char` is signed bytes from 0x80 on get eight
  digits of which three characters are kept. `UrlRoundTrip.RoundTrip` says which strings come back.
- `url_encode` allots three bytes for each character and none for the terminator. `UrlCodec.FitsExactly` says for which
  strings everything it writes lies in that buffer.
- The manual says that directory contexts always override server contexts
  (`doc/xml/mod_ruby.module.config.contexts.xml`, lines 146 to 149). Inside a directory the `RubyDefaultHandler…`
  directives store their argument under names that are not read when a handler is looked for
  (`HandlerResolution.DirectoryDefaultIsIgnored`).
- `RubyAccessHandler` is merged from the same server field as `RubyHandler`, and the directive writes that field.
- The configuration runs once in each phase, on the same notes. The second run can add settings
  (`ResolutionExamples.SecondPhaseExample`, `Precedence.SecondPhaseAddsSettings`) and change which handler is found
  (`ResolutionExamples.TwoRunsDiffer`), in requests whose access handler is found and run;
  `Precedence.SecondPhaseExact` says when it changes nothing.
- Two handlers whose module or class names contain `::` can share an id and so an object (`HandlerCache.IdCollision`,
  `HandlerCache.IdShared`).

## Model

| member | source | states |
|---|---|---|
| Substitution.IndexOf | src/util.hpp:26-39 | the search finds the first occurrence from a position on, or there is none |
| Substitution.Replace | src/util.hpp:26-39 | the in-place loop ends for every non-empty `find`, even one that the replacement contains, and gives the left-to-right non-overlapping substitution, the number of replacements, and a length changed by that many differences |
| Substitution.SubstituteLength | src/util.hpp:26-39 | each replacement changes the length by the same difference |
| Substitution.SkipToMatch | src/util.hpp:26-39 | a front in which nothing occurs is left alone by the substitution |
| Substitution.SubstituteHere | src/util.hpp:26-39 | an occurrence is replaced and the substitution goes on behind it |
| Substitution.ThreePassesIsEscape | src/rhtml.cpp:45-49 | the three passes over a text, in their order, are one map per character: backslash, quote and hash get a backslash, and none gets two |
| Substitution.EscapeDistributes | src/rhtml.cpp:45-49 | escaping a text in pieces is escaping it whole |
| FlexRules.NextIsLongestMatch | src/rhtml.lex:18-131 | in every start condition the scanner's step is the rule with the longest match, the earliest of those, with exactly that match |
| RhtmlScanner.Consumed | src/rhtml.lex:18-28 | every step takes some input, except the one that leaves INITIAL |
| RhtmlScanner.ScanConservesInput | src/rhtml.lex:18-131 | the lexemes of a scan, put together, are the input |
| RhtmlScanner.ScanProgress | src/rhtml.lex:18-28 | the only empty lexeme is the first one of a scan from INITIAL |
| RhtmlScanner.ScanConcat | src/rhtml.lex:117-123 | a line feed is a seam: a scan of two parts is the scan of the first and then of the second from where the first ended |
| RhtmlOutput.RanShift | src/rhtml.cpp:32-168 | what was flushed earlier and the line counters do not influence what is emitted later |
| RhtmlParser.Parser.constructor | src/rhtml.cpp:20-25 | a new parser is in text, on line one, with nothing emitted |
| RhtmlParser.Parser.Append | src/rhtml.cpp:27-30 | the text is put on the line and nothing else changes |
| RhtmlParser.Parser.Read | src/rhtml.cpp:32-59 | in text the escaped lexeme is put into a literal, opened if the line is empty; in code and comments it is put on the line as it is |
| RhtmlParser.Parser.Change | src/rhtml.cpp:89-126 | the whole new state: what the state left behind puts on the line, the new state and the line it begins on |
| RhtmlParser.Parser.EndLine | src/rhtml.cpp:128-168 | the line is finished as its state demands and moved to the text, and the line count goes up |
| RhtmlParser.Parser.Init | src/rhtml.lex:137-141 | both strings are cleared, state and counters stay |
| RhtmlParser.Parser.Finalize | src/rhtml.lex:143-148 | back to text state; the line is not flushed |
| RhtmlParser.Parser.Act | src/rhtml.lex:18-131 | the action of each rule on the parser |
| RhtmlParser.Parser.LexScan | src/rhtml.lex:18-131 | the scanner loop runs the actions of all tokens of the input, in order |
| RhtmlParser.Parser.CompileText | src/rhtml.lex:184-196 | whatever was compiled before, the text is that of a new parser; a document that ends with a line feed and closes its expressions compiles to a program that reads back as what it says exactly when its comments do no damage; a marker-free one to a program that prints its normalised text |
| RubyReader.FeedConcat | src/rhtml.cpp:32-168 | reading a program in two parts is reading it whole |
| RubyReader.FeedEscapedChar | src/rhtml.cpp:45-49 | every character, escaped, is read back in a literal as itself |
| RubyReader.FeedOpen | src/rhtml.cpp:40-43 | `print "` opens a literal at the start of a statement and after code that ends its line |
| RubyReader.FeedLineEnd | src/rhtml.cpp:128-168 | the end of a text line prints a line feed, closes the literal and ends the statement |
| RhtmlMeaning.MeaningStep | src/rhtml.lex:18-131 | the meaning of a template, which knows nothing of rules and states, can be taken one token at a time |
| RhtmlMeaning.TokenTracks | src/rhtml.cpp:32-168 | every action keeps a reader of the output in step: a literal is open exactly in text state with something on the line, and the events so far are those of the template so far |
| RhtmlMeaning.DamageStep | src/rhtml.lex:90-100 | the damage comments do, defined on the template alone, is counted by the parser's fields step by step |
| RhtmlMeaning.RunTracks | src/rhtml.cpp:32-168 | from any point in step, over any rest without damage, the finished program does what was done and then what the rest says |
| RhtmlMeaning.RestConcat | src/rhtml.lex:117-123 | a part that ends with a line feed and in text has a meaning of its own, to which the meaning of what follows is added |
| RhtmlMeaning.RestSplit | src/rhtml.lex:117-123 | a line feed is a seam of the meaning in any state: what a part that ends with one means, and the code it leaves open, do not depend on what follows |
| RhtmlMeaning.MeaninglessExact | src/rhtml.lex:42-88 | a document has no meaning if and only if it ends inside an expression block |
| RhtmlTheorems.TextIsFlushedPart | src/rhtml.lex:143-148 | a document compiles to the same text as its part up to the last line feed |
| RhtmlTheorems.CompilePreservesMeaning | src/rhtml.cpp:32-168 | reading back the program of a document whose comments do no damage gives exactly the events the document says, and no program where an expression block is left open |
| RhtmlTheorems.CompileMeansFlushedPart | src/rhtml.lex:143-148 | every comment-free document, however it ends, compiles to the meaning of its part up to the last line feed |
| RhtmlTheorems.NoMarkerNoComment | src/rhtml.lex:90-100 | a document without the four characters that open a comment is comment-free |
| RhtmlTheorems.MarkerFreeMeaning | src/rhtml.lex:30-40 | a marker-free template means its characters, with CRLF as LF and the pairs `\n`, `\r`, `\t` dropped |
| RhtmlTheorems.TextRoundTrip | src/rhtml.cpp:32-59 | for marker-free templates the plain output string, read as Ruby, prints the normalised template: no quote or hash stands unescaped |
| RhtmlTheorems.LineFeedFlushes | src/rhtml.cpp:128-168 | after a document that ends with a line feed nothing is left on the line |
| RhtmlTheorems.CompileConcat | src/rhtml.lex:184-196 | if a document ends with a line feed and leaves scanner and parser in text, it and any other compile to the two texts one after the other |
| RhtmlTheorems.CompileConcatCommentFree | src/rhtml.lex:184-196 | for comment-free documents the scanner alone decides that |
| RhtmlTheorems.ReuseIsSafe | src/rhtml.lex:137-148 | a parser in text state compiles everything to the same text as a new one, and is in text state again |
| RhtmlTheorems.InStepUnlessDashes | src/rhtml.lex:129-131 | start condition and parser state agree at every point of a run if and only if no comment is closed by `--%>` |
| RhtmlComments.BehaviourSize | src/rhtml.cpp:54-57 | a complete program runs every copied character that is not idle, once |
| RhtmlComments.RunCopies | src/rhtml.cpp:54-57 | the characters copied, idle ones apart, are those of the template's code and of its comments |
| RhtmlComments.CommentTextChangesMeaning | src/rhtml.cpp:54-57 | a comment character that is not idle is run as code or spoils the program; the program never reads back as what the document says |
| RhtmlQuotes.OutToken | src/rhtml.cpp:89-168 | with the quotes out of phase every token but such a comment keeps them so, and the program stays behind what was meant in the letters and expressions it has printed |
| RhtmlQuotes.PhaseChange | src/rhtml.lex:96-100 | a comment closed inside a line takes the quotes out of phase, or puts them right when the program has fallen behind |
| RhtmlQuotes.RunFallsShort | src/rhtml.cpp:89-168 | from any point, if the quotes are out of phase or ever will be, a complete program prints less than was meant |
| RhtmlQuotes.RunLoses | src/rhtml.lex:129-131 | otherwise it is short of exactly the line ends and idle characters of text that stand between a `--%>` and the next marker |
| RhtmlQuotes.CommentsExact | src/rhtml.lex:90-131 | for every document that ends with a line feed and closes its expressions: the program reads back as what the document says if and only if its comments hold nothing but line ends and idle characters, those closed by `%>` are closed on an empty line, and no text stands between `--%>` and the next marker |
| RhtmlQuotes.BlankComment | src/rhtml.cpp:54-57 | a blank or semicolon in a comment does no damage: such documents do what they say if the rest does |
| RhtmlQuotes.TextInComment | src/rhtml.cpp:54-57 | a family of documents with one other character in a comment, none of which compiles to its meaning |
| RhtmlQuotes.CommentInsideLine | src/rhtml.cpp:89-126 | a family with an empty comment inside a line, none of which does |
| RhtmlQuotes.LineEndAfterDashes | src/rhtml.lex:129-131 | a family with a comment closed by `--%>` at the end of a line, none of which does |
| RhtmlLines.TokenAdds | src/rhtml.cpp:32-168 | what each action puts behind everything emitted so far |
| RhtmlLines.LineFidelity | src/rhtml.cpp:128-168 | the line count is one more than the document's line feeds; the output has one for each except those inside expressions and comments; and all copied code is on the output line of its own number if and only if none follows such a line end |
| RhtmlTails.SilentExact | src/rhtml.lex:30-100 | the text without line ends that means nothing is exactly that made of dropped pairs, comments, and code blocks of idle characters |
| RhtmlTails.BlockSilentExact | src/rhtml.lex:68-111 | what follows an open code block adds nothing to it exactly when it is idle up to the closing marker and silent from there on |
| RhtmlTails.TailCosts | src/rhtml.lex:143-148 | a document whose comments do no damage up to its last line feed compiles to its whole meaning, however it ends, exactly when what follows that line feed makes no difference where it stands: in text, a code block, a comment or an expression left open |
| RhtmlLaws.TextSpecials | src/rhtml.lex:30-40 | both kinds of line end print a line feed, the three pairs print nothing |
| RhtmlLaws.TextMarkers | src/rhtml.lex:42-94 | the five opening markers, in characters, and what each opens |
| RhtmlLaws.TextOther | src/rhtml.lex:103-105 | every other character of text prints itself |
| RhtmlLaws.CodeBlock | src/rhtml.lex:68-123 | code is kept as it is, CRLF as a line feed, up to either closing marker or the end |
| RhtmlLaws.ExpressionBlock | src/rhtml.lex:68-123 | an expression is shown at either closing marker, without its line ends; left open it has no meaning |
| RhtmlLaws.Remark | src/rhtml.lex:90-131 | a comment does nothing up to its closing marker, with or without dashes |
| RhtmlLaws.BlockIs | src/rhtml.cpp:89-126 | a block of idle characters does nothing; idle characters around other code make no difference |
| RhtmlLaws.Escapes | src/rhtml.cpp:45-49 | which three characters are escaped and how |
| RhtmlLaws.TextDocument | src/rhtml.cpp:32-168 | the program, letter by letter, of any line of text |
| RhtmlLaws.CodeDocument | src/rhtml.cpp:32-168 | the program, letter by letter, of any line with a code block between two texts |
| RhtmlLaws.ExpressionDocument | src/rhtml.cpp:32-168 | the program, letter by letter, of any line with an expression between two texts |
| RhtmlLaws.BlockStart | src/rhtml.cpp:89-126 | a change of state keeps the line count and notes the line for the block |
| Md5Transform.F1IsStandard | src/md5.h:30-37 | `F1` is the standard's F on all words |
| Md5Transform.F2IsStandard | src/md5.h:30-37 | `F2`, which swaps the arguments of `F1`, is the standard's G |
| Md5Transform.F3IsStandard | src/md5.h:30-37 | `F3` is the standard's H |
| Md5Transform.F4IsStandard | src/md5.h:30-37 | `F4` is the standard's I |
| Md5Vectors.TruthTables | src/md5.h:30-37 | the standard's four functions bit by bit: if x then y else z; if z then x else y; parity; y differs from x or not z |
| Md5Transform.StepsCompose | src/md5.cpp:95-176 | steps of the standard's loop can be cut anywhere |
| Md5Transform.Round1 | src/md5.cpp:104-119 | the first sixteen lines, with their rotated registers, are steps 1 to 16 of the standard's loop |
| Md5Transform.Round2 | src/md5.cpp:121-136 | the next sixteen are steps 17 to 32 |
| Md5Transform.Round3 | src/md5.cpp:138-153 | the next sixteen are steps 33 to 48 |
| Md5Transform.Round4 | src/md5.cpp:155-170 | the last sixteen are steps 49 to 64 |
| Md5Transform.Transform | src/md5.cpp:95-176 | the buffer becomes the standard's compression of it with the block |
| Md5Memory.ByteReverse | src/md5.cpp:82-93 | the first words of the buffer are byte-reversed on a big-endian host, nothing else changes |
| Md5Memory.ReversedLoads | src/md5.cpp:82-93 | byte reversal and then native loads is little-endian decoding, on either kind of host |
| Md5Memory.ReversedStore | src/md5.cpp:274-289 | native stores and then byte reversal is little-endian encoding, on either kind of host |
| Md5Streaming.CounterStep | src/md5.cpp:189-206 | the two words with the hand-made carry hold eight times the length modulo 2 to the 64, after every update |
| Md5Streaming.CounterPosition | src/md5.cpp:205-209 | the low word tells how many bytes wait in the buffer |
| Md5Streaming.CounterWords | src/md5.cpp:268-272 | the two words are the length words of section 3.2 of RFC 1321 |
| Md5Streaming.AbsorbBlock | src/md5.cpp:209-238 | one block more is one compression more |
| Md5Streaming.ProcessBlock | src/md5.cpp:227-235 | processing blocks is processing them one after the other, each from the registers the last one left |
| Md5Streaming.FinishShort | src/md5.cpp:258-272 | with room for the length, padding and length make one last block, the standard's |
| Md5Streaming.FinishLong | src/md5.cpp:246-272 | without room they make two, and the result is again the standard's |
| Md5Vectors.PaddingIsLeast | src/md5.cpp:241-262 | the padding is one bit and then the fewest zero bits that make the length 56 bytes modulo 64 |
| Md5Vectors.LengthIs | src/md5.cpp:268-272 | the two length words, as numbers |
| Md5Vectors.Lengths | src/md5.cpp:268-272 | the length words of four lengths, up to where they wrap |
| Md5Vectors.InitialBytes | src/md5.cpp:178-187 | the initial registers are the sixteen bytes of section 3.3 of RFC 1321 |
| Md5Vectors.DigestOfAbc | src/md5.cpp:95-289 | the digest of "abc" is the sixteen bytes of appendix A.5 of RFC 1321, through all sixty-four steps |
| Md5.Hash.constructor | src/md5.cpp:28-31 | a new object has seen nothing |
| Md5.Hash.Init | src/md5.cpp:178-187 | the object is as if it had seen nothing |
| Md5.Hash.Count | src/md5.cpp:189-206 | the counter moves on by the length, and the old position in the buffer is returned |
| Md5.Hash.Lead | src/md5.cpp:208-225 | a part block is filled up and compressed |
| Md5.Hash.Chunks | src/md5.cpp:227-235 | all whole blocks of the data are compressed |
| Md5.Hash.KeepRest | src/md5.cpp:237-238 | the rest waits in the buffer |
| Md5.Hash.Update | src/md5.cpp:189-239 | registers, buffer and counter stand for the message so far, which is now longer by the data |
| Md5.Hash.Finish | src/md5.cpp:241-276 | both padding branches give the compression of the whole padded message |
| Md5.Hash.WriteDigest | src/md5.cpp:274-289 | the sixteen bytes of the digest are the registers in the standard's order on either kind of host |
| Md5.Hash.Final | src/md5.cpp:241-289 | the digest is that of RFC 1321 for all bytes seen, and the context is wiped |
| Md5.Hash.HashChunks | src/md5.cpp:178-289 | `init`, any number of updates of any lengths below 2 to the 32, and `final` give the one-shot digest of all the bytes |
| Md5.Hash.HashFile | src/md5.cpp:55-75 | however a file comes in reads, the digest is the one-shot digest of its bytes |
| UrlCodec.Hex2Int | src/util.cpp:77-91 | the bit trick gives the value of a digit in either case and 255 for every other byte |
| UrlCodec.DecodeOne | src/util.cpp:106-140 | one turn of the loop writes the next decoded character at the write cursor and says how far to read on, never past the terminator |
| UrlCodec.DecodingStep | src/util.cpp:106-140 | the write cursor never overtakes the read cursor, the rest of the input is untouched, and what is written is the decoding of what is read |
| UrlCodec.UrlDecode | src/util.cpp:93-149 | in place with two cursors, every input decodes to its recursive percent-decoding up to the first zero byte, and a null string to the empty one |
| UrlLaws.DigitHasValue | src/util.cpp:77-91 | each of the digits 0 to 9, a to f and A to F has its value |
| UrlLaws.NoDigitNoValue | src/util.cpp:77-91 | no other character has one |
| UrlLaws.DecodeEscape | src/util.cpp:112-132 | a percent sign and two such digits, each in either case, are the byte they name |
| UrlLaws.DecodeBarePercent | src/util.cpp:112-132 | any other percent sign stays |
| UrlLaws.DecodePlus | src/util.cpp:108-111 | a plus sign is a space, in a query only |
| UrlLaws.DecodeOther | src/util.cpp:133-136 | every other character stays |
| UrlLaws.DecodeNothingToDo | src/util.cpp:93-149 | a string without percent and plus signs is its own decoding |
| UrlLaws.CutAtNul | src/util.cpp:142-144 | the result is what stands before the first zero byte |
| UrlCodec.EncodeOne | src/util.cpp:188-207 | one turn writes the encoding of one character, and nothing before it changes, exactly when everything `sprintf` writes lies in the buffer |
| UrlCodec.Encode | src/util.cpp:181-216 | the encoding is at most three times as long and empty only for the empty string |
| UrlCodec.EncodedLength | src/util.cpp:188-207 | the encoding is shorter than three bytes for each character by two for each character that stays one |
| UrlCodec.FitsExactly | src/util.cpp:185-209 | everything written lies in the buffer if and only if some character stays one and, where `char` is signed, each byte from 0x80 on has ten bytes left, counted on the input |
| UrlCodec.UrlEncode | src/util.cpp:181-216 | in a buffer of three bytes for each character the loop gives the encodings one after the other, for signed and unsigned `char`, or runs past the end for exactly the other strings |
| UrlRoundTrip.EncodedShape | src/util.cpp:188-207 | what `%2X` prints for each byte, cut to three characters |
| UrlLaws.EncodeCharIs | src/util.cpp:188-207 | the sixty-five characters left alone, the space as a plus sign, and the digits that stand for every other byte |
| UrlLaws.EncodeConcat | src/util.cpp:188-207 | encoding in pieces is encoding whole |
| UrlLaws.OwnEncoding | src/util.cpp:188-207 | a string is its own encoding if and only if all its characters are among those left alone |
| UrlRoundTrip.DecodeEncodedChar | src/util.cpp:93-216 | what each encoded byte decodes to in front of anything else |
| UrlRoundTrip.RoundTrip | src/util.cpp:93-216 | decoding the encoding gives a string back if and only if each of its bytes survives: 0x10 to 0x7F always, 0x80 and up where `char` is unsigned or the byte is 0xFF, below 0x10 never, a space only in query mode |
| UrlRoundTrip.EncodedIsSafe | src/util.cpp:181-216 | no encoding contains `&`, `=` or a zero byte |
| AprTable.GetSet | src/apr_table.cpp:83-91 | a value set is found under the key in any case, and no other key's value changes |
| AprTable.GetMerge | src/apr_table.cpp:108-111 | a value merged is found behind the key's old value and a comma, or alone if there was none, and no other key's value changes |
| AprTable.GetWithout | src/apr_table.cpp:88-91 | taking out the duplicates of a key leaves the other keys alone |
| AprTable.SetAndMergeInPlace | src/apr_table.cpp:88-111 | a key that is there keeps its place and spelling; setting takes out its later entries, merging puts the value behind a comma |
| AprTable.SetAndMergeAtEnd | src/apr_table.cpp:88-111 | a new key comes last |
| AprTable.FirstOfJoined | src/apr_table.cpp:138-146 | an entry is joined as its key, an equals sign and its value, with the separator before the next one |
| AprTable.Table.Join | src/apr_table.cpp:130-151 | the loop over the iterator gives the entries as `key=value` with the separator between them and not after them |
| AprTable.JoinedFrontIsJoined | src/apr_table.cpp:138-146 | the index test puts no separator after the last entry |
| AprTable.Iterator.constructor | src/apr_table.cpp:193-199 | a new iterator stands before the first entry |
| AprTable.Iterator.Next | src/apr_table.cpp:261-277 | the cursor moves to the next entry exactly when there is one, and stays otherwise |
| Query.Split | src/util.cpp:34-45 | the pieces between delimiters are appended, with no empty piece at the end |
| Query.AddOne | src/request.cpp:352-377 | one pair is split, decoded and merged into the table |
| Query.ParseQueryString | src/request.cpp:352-377 | all pairs of the string are, in order, whatever is in the table |
| QueryLaws.PiecesConcat | src/util.cpp:34-45 | a delimiter separates the pieces before it from those after it; an empty piece stands between two delimiters and before a first one, not after a last one |
| QueryLaws.OnePiece | src/util.cpp:34-45 | a string without the delimiter is one piece, the empty string none |
| QueryLaws.ParsedConcat | src/request.cpp:352-377 | of two strings joined by an ampersand the second is parsed into the table of the first |
| QueryLaws.NoEqualsSign | src/request.cpp:360-364 | a piece without an equals sign leaves the table as it is |
| QueryLaws.NoValue | src/request.cpp:366-371 | so does one with nothing after its first equals sign |
| QueryLaws.OnePair | src/request.cpp:360-374 | any other piece is cut at its first equals sign, both sides are decoded and merged |
| QueryLaws.PieceMakesNoDifference | src/request.cpp:352-377 | wherever a piece without an equals sign stands, the table is the same without it |
| QueryLaws.KeysOfParsed | src/request.cpp:352-377 | every key comes from a piece, from before its first equals sign and with something after it |
| Query.PiecesOfJoined | src/util.cpp:34-45 | splitting at `&` undoes joining with it, where no entry has one |
| Query.ParsedPrinted | src/request.cpp:352-377 | what any table of byte strings, printed as a query, is parsed to |
| Query.QueryRoundTrip | src/request.cpp:352-377 | parsing the printed table gives it back, entries and order, if and only if its keys differ in more than case, no value is empty, and all bytes survive encoding |
| RequestBody.Client.GetBlock | src/request.cpp:226-277 | a block of 1 to n bytes in order, nothing only at the end |
| RequestBody.Request.ReadLine | src/request.cpp:279-327 | a line is the bytes from where reading stood, it has no earlier CRLF, and it ends with CRLF, is a bare LF, or is the rest of the body |
| RequestBody.Request.Read | src/request.cpp:329-350 | at most so many bytes from where reading stood; -1 once the end was seen; and when the end is taken to be seen, which a read of no bytes brings about too |
| RequestBody.Request.Content | src/request.cpp:226-277 | all bytes not read yet are appended to the content and none is left |
| RequestBody.Request.FormData | src/request.cpp:379-435 | the table is made once; a form body gives the parse of everything read, another type a table with just the type, no type none |
| RequestBody.Drain | src/request.cpp:279-350 | the results of any interleaving of line and block reads are, put together, the body up to where reading stands, exactly for a body without zero bytes and otherwise but for zero bytes, which lines drop; it is all of the body once the end was seen, unless some call asked for no bytes, and one call more than there are bytes sees the end |
| Directives.Server.SetHandlerDeclare | src/mod_ruby.c:315-346 | a declaration outside directories makes an empty handler unless it is there; inside one it is refused |
| Directives.Server.HandlerSetParams | src/mod_ruby.c:349-387 | the parameter is set in the handler's hash, or the directive is refused and nothing changes; which of the three complaints is given, each as an if and only if |
| Directives.ConfigureExact | src/mod_ruby.c:315-387 | a file of such directives is read without error if and only if each is complete, outside directories and after its handler's declaration; then exactly the declared handlers exist, each parameter with its last value, whatever was declared again |
| Configuration.CopyTable | src/module.cpp:323-336 | the iterator loop sets every entry of a table in turn |
| Configuration.MergeVariable | src/module.cpp:274-299 | the directory's value, else the server's, is set; the answer says whether the note is set afterwards |
| Configuration.CopyHash | src/module.cpp:373-385 | every entry of a hash is set, in some order that has each key once |
| Configuration.InitConfiguration | src/module.cpp:310-411 | the notes are all layers laid over each other in their order, the hashes in some order |
| Configuration.GetCopyAll | src/module.cpp:323-336 | after copying a table each key has its last value there, or its old one |
| Configuration.GetMergeVar | src/module.cpp:274-299 | what merging one variable means for every key |
| Configuration.HashOrderIndependent | src/module.cpp:380-384 | the order of walking a hash shows in no value if and only if the hash has no two keys equal up to case with different values |
| Precedence.ClosedForm | src/module.cpp:310-411 | every note after a run is the topmost of: options of the server, of the directory, default fields, settings of the handler selected, access handler variable, settings of the access handler selected; the hash orders do not show, unless a hash selected has two keys equal up to case with different values |
| PrecedenceLaws.OptionWins | src/module.cpp:323-336 | an option of the directory beats one of the server, which beats an earlier note |
| PrecedenceLaws.VariableWins | src/module.cpp:274-299 | a variable of the directory beats the server's field, which beats an option of that name; the two handlers share a field |
| PrecedenceLaws.HandlerSelected | src/module.cpp:366-386 | the settings of the handler the directory names, or else the server |
| PrecedenceLaws.AccessHandlerSelected | src/module.cpp:388-408 | the settings of the access handler the directory names, or else the server, in the same field |
| PrecedenceLaws.SettingWins | src/module.cpp:366-408 | a setting of the access handler beats everything, one of the handler everything else but the access handler variable |
| PrecedenceLaws.SettingOf | src/module.cpp:380-384 | what a hash gives a key, whatever its case |
| PrecedenceLaws.SameKeyOneChar | src/apr_table.cpp:83-91 | which characters are the same in a key: letters in both cases and nothing else |
| PrecedenceLaws.SameKeyCons | src/apr_table.cpp:83-91 | keys are compared character by character |
| Precedence.RunsGiveTwice | src/module.cpp:625-638 | every note after the access phase and the content phase have both run, told from the configuration and the notes before |
| Precedence.SecondPhaseExact | src/module.cpp:310-411 | the second run changes no value of any key if and only if, among the keys of the at most four hashes selected in the two runs, every value it applies is in force already |
| Precedence.SecondPhaseChangesNothing | src/module.cpp:310-411 | it changes none if the selected handlers cannot select other ones |
| Precedence.PlainHashesSelectAgain | src/module.cpp:366-408 | so it is where no declared handler's hash has a `RubyHandler` or `RubyAccessHandler` key |
| Precedence.SelectsAgainOnFreshNotes | src/module.cpp:366-408 | on fresh notes that is so if and only if `RubyHandler` is configured or the access handler's hash does not set it |
| Precedence.LateHandlerExact | src/module.cpp:366-408 | in the case left, with the access handler kept, nothing changes if and only if each setting of the handler so named is in force without it: given by the access handler, overridden by the directory's, or the value there already |
| Precedence.SecondPhaseAddsSettings | src/module.cpp:388-408 | a setting of the handler so named appears in the second run unless the access handler has it |
| Precedence.RunExists | src/module.cpp:310-411 | every configuration has a run on every notes |
| HandlerResolution.GetHandler | src/module.cpp:484-560 | the triple to load, or the error, and the three notes recorded exactly when defaults are used |
| HandlerResolution.DefaultsMakeHandler | src/module.cpp:498-556 | without a `RubyHandler` note the handler is made of the three defaults in their places, each the note or else the server's field |
| HandlerResolution.MissingDefault | src/module.cpp:543-547 | if one of them is missing there is none |
| HandlerResolution.NamedHandler | src/module.cpp:503-524 | a declared handler is made of the three names in its hash, or there is none; an undeclared name gives the empty handler |
| HandlerResolution.GetAccessHandler | src/module.cpp:563-608 | the declared access handler's triple, or the empty handler; never the defaults |
| HandlerResolution.NamedAccessHandler | src/module.cpp:563-608 | the same of the access handler, which is empty if none is named |
| HandlerResolution.AccessClosedForm | src/module.cpp:859-877 | the access handler is a function of the layers of the first run |
| HandlerResolution.ResolvedClosedForm | src/module.cpp:625-638 | the handler of the content phase is a function of the layers of both runs, on any notes: the declared handler named topmost, or for each default the topmost layer that has it |
| HandlerResolution.ContentDefaults | src/module.cpp:625-638 | in the content phase the three defaults make the handler, each the note after both runs or else the server's field |
| HandlerResolution.ContentDefaultMissing | src/module.cpp:625-638 | if one of them is missing there is none |
| HandlerResolution.ContentNamed | src/module.cpp:625-638 | with a `RubyHandler` note after both runs it is the declared handler of that name |
| HandlerResolution.OneRunIsEnough | src/module.cpp:625-638 | it is the one that a single run gives, if the selected handlers cannot select other ones |
| HandlerResolution.ServeRequest | src/module.cpp:859-953 | a request whose access handler lacks one of its names, or does not pass, ends in the access phase; otherwise access phase and content phase on the same notes, one after the other, find these two handlers |
| ResolutionExamples.SecondPhaseExample | src/module.cpp:388-408 | a configuration whose access handler is found, and a key that is missing after the first run on empty notes and set after the second |
| ResolutionExamples.TwoRunsDiffer | src/module.cpp:625-638 | a configuration whose access handler is found, where a single run gives a content handler and the content phase finds none |
| HandlerResolution.MergeDirValue | src/mod_ruby.c:569-601 | in nested directories the inner value wins, key by key |
| HandlerResolution.DirectoryDefaultIsIgnored | src/mod_ruby.c:110-192 | a default handler directive inside a directory changes neither the access handler nor the content handler, whatever the notes |
| HandlerCache.IdInjective | src/module.hpp:34-42 | ids tell triples apart when no module or method name has a colon |
| HandlerCache.CutBack | src/module.hpp:34-42 | an id is module, class and method, in this order, with two colons between them |
| HandlerCache.IdShared | src/module.hpp:34-42 | a triple shares its id with another if and only if its id has a further `::` that can stand beside one of its own two |
| HandlerCache.IdCollision | src/module.hpp:34-42 | without that they do not: a family of different triples with the same id |
| HandlerCache.Handler.constructor | src/module.cpp:466-481 | the three names, no id yet, no object |
| HandlerCache.Handler.Id | src/module.hpp:34-42 | the id is the joined names whether it was asked for before or not, and is kept |
| HandlerCache.Cache.Load | src/module.cpp:414-464 | the whole new cache and the outcome: an object is made and kept exactly for a new id whose file loads and whose class can be constructed; a failure leaves the cache as it was |
| HandlerCache.Serve | src/module.cpp:414-464 | over any run of requests with any failures, each ends as the run before it says: with the object made for the first request with its id that could make one; two get the same object if and only if their ids are the same |
| HandlerCache.PlainRun | src/module.cpp:414-464 | where no module or method name has a colon, objects are of the class asked for and shared exactly by equal triples |

## Left out

- RhtmlQuotes.CommentsExact: documents that leave an expression block open have no meaning to compare with; of those only the ones without damage are covered, by `RhtmlTheorems.CompilePreservesMeaning`.
- RubyReader.FeedConcat: the reader knows the Ruby that the parser emits, not all of Ruby; code fragments are opaque and taken to be self-delimiting. Comment text, or text outside a literal, that is itself written in Ruby so as to complete the program (such as `print "` in a comment) is not followed.
- RhtmlParser.Parser.CompileText: `strlen` cuts a document at its first zero byte, so the argument is the part before it; the flex buffers are not modelled.
- RhtmlTheorems.ReuseIsSafe: the line counters of a reused parser go on counting, as they do in the source; the values are unbounded integers.
- Precedence.SecondPhaseChangesNothing: a condition that is enough; the exact one is `Precedence.SecondPhaseExact`.
- HandlerResolution.GetHandler: the call that loads the handler is `HandlerCache.Cache.Load`.
- HandlerResolution.ServeRequest: the Ruby code of the access handler, which runs between the phases, is a parameter that says whether the request goes on, and is taken to leave the notes alone; the closed forms hold for any notes.
- Md5.Hash.Update: the data is a sequence of bytes of at most 32-bit length, as the type of the length parameter has it.
- Md5.Hash.WriteDigest: the registers are words; the byte view of them that the source reverses in place is built in an array of its own.
- Md5.Hash.HashFile: the branches for a missing or unreadable file, which compute nothing.
- UrlCodec.UrlEncode: what happens after a write past the end of the buffer; `isalnum` is that of the C locale.
- RequestBody.Request.Read: a negative length, which the source's type allows.
- RequestBody.Request.FormData: the error text for an unsupported content type is not kept; a read error of the client, which ends reading like the end of the body, is not told apart from it; the callback form of `content` and the size limit, which stops nothing, are left out.
- Configuration.InitConfiguration: the iterator over a table is a loop over its entries.
- Directives.ConfigureExact: the other directives, which set one field or table entry each, are not part of it.
- HandlerCache.Cache.Load: `require` and the construction of a Ruby object are parameters that say whether they succeed; the text of the exceptions is not modelled.
- `compile_file`, the block start line in error messages, and the unused indentation state of the scanner.
- Hexadecimal printing of digests, SHA-1 and the byte-swapping helpers: fixed-size loops.
- Iterator `first`, `last`, `prev` and `seek`, and the one-line table accessors.
- The Ruby VM, garbage collection, Apache hooks, logging, sending of responses, cookies and file helpers: foreign calls and one-line wrappers.
