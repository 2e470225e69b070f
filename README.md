# Verilog tag scanner, modelled in Dafny

This project models the Verilog tag scanner of ctags (`ctags/parsers/geany_verilog.c`). The scanner is a single-pass, hand-written lexer. It turns Verilog source text into an ordered list of tags, each a declared name with a kind. The kinds are constant, event, function, module, net, port, register and task.

The model keeps the scanner's own structure:

- **`VerilogKinds`** (`kinds.dfy`): the kinds, the tags, the ASCII character classes and the keyword table, with an exact, case-sensitive lookup.
- **`VerilogStream`** (`stream.dfy`): the character adapter `vGetc`, as a function `Next` of the pending stream.
  - The pending stream is the pushback slot, then the host reader's own pushback, then the unread input.
  - `//` comments, block comments and string literals are elided.
  - End of input is an explicit `Eof` outcome; in the C code it is a `longjmp`.
- **`VerilogGrammar`** (`grammar.dfy`): one function per routine of the scanner, defined over the pending stream. Each says what the routine reads, what it leaves pending and which tags it emits. These are `skipWhite`, `skipPastMatch`, `readIdentifier`, the parts of `tagNameList`, the two branches of `findTag`, and the statement driver `findVerilogTags`, as `Scan`.
- **`VerilogScanner`** (`scanner.dfy`): the imperative scanner, a class with these fields:
  - the input and the host reader's cursor and its raw pushback;
  - the `Ungetc` slot;
  - the identifier buffer;
  - the emitted tags.

  Every routine is a method with the source's loops. Each is proved to do exactly what its `VerilogGrammar` function says. `TagFile` runs the scanner on a text and returns `Scan(true, text)`.
- **`VerilogProperties`** (`properties.dfy`): what the scanner does with whole pieces of Verilog text.
  - Comments and strings hide their contents, except a comment or string that opens right after a block comment's close: the character after `*/` is not elided again (`VerilogProperties.CommentAfterComment`).
  - A keyword in the middle of a statement is never classified.
  - Declaration lists yield one tag per name, in order. A width `(..)`, a range `[..]` or a parameter list `#(..)` after the keyword is skipped first, and so is a dimension `[..]` or an initializer after each name. The lemmas that state these assume the bracketed text contains no nested brackets.
  - A `` `define `` line whose name is followed by another character yields exactly one constant; a name cut off by end of input is lost (`VerilogProperties.DefineAtEnd`). When its rest of line holds no `/` or `"`, the next line starts a statement. When it opens a string that is never closed, nothing after it is scanned.
  - End of input keeps the tags emitted before it.
  - The scanner's quirks hold: `;` is dropped after a bare keyword, and a braced initializer ends the list.

An unterminated string literal does not end the scan at once. The code sets the character to `@` after the body loop has reached end of input, so `vGetc` returns `@`, and the scan ends at the next read. The model does what the code does (`VerilogStream.StringElided`). The difference shows when the string ends a name. The `@` ends the name and is pushed back, so the name is tagged before the next read reaches end of input (`VerilogProperties.OpenStringKeepsName`). A name that runs into end of input itself is lost (`VerilogProperties.NameListAtEnd`).

## Model

| member | source | states |
|---|---|---|
| VerilogKinds.Lookup | ctags/parsers/geany_verilog.c:69-96 | An identifier is `Undefined` exactly when no table entry is spelled the same. Otherwise its kind is that of the first entry spelled the same. |
| VerilogKinds.KeywordsDefined | ctags/parsers/geany_verilog.c:69-96 | No table entry has the `Undefined` kind, so a listed identifier is never classified as unlisted. |
| VerilogKinds.KeywordsAreWords | ctags/parsers/geany_verilog.c:69-96 | Every keyword consists of identifier characters, so `readIdentifier` can read it whole. |
| VerilogKinds.KeywordsStartLowerCase | ctags/parsers/geany_verilog.c:69-96 | Every keyword starts with a lower-case letter or a backtick. |
| VerilogKinds.LookupWire | ctags/parsers/geany_verilog.c:94 | `wire` classifies as a net. |
| VerilogKinds.LookupParameter | ctags/parsers/geany_verilog.c:78 | `parameter` classifies as a constant. |
| VerilogKinds.LookupDefine | ctags/parsers/geany_verilog.c:70 | `` `define `` classifies as a constant. |
| VerilogKinds.LookupReg | ctags/parsers/geany_verilog.c:81 | `reg` classifies as a register. |
| VerilogKinds.LookupInout | ctags/parsers/geany_verilog.c:73 | `inout` classifies as a port. |
| VerilogKinds.LookupIsCaseSensitive | ctags/parsers/geany_verilog.c:69-96 | `Wire`, `REG` and `Module` are not keywords: the lookup is case-sensitive. |
| VerilogKinds.IsIdentifierCharacter | ctags/parsers/geany_verilog.c:163-166 | A character may make up an identifier exactly when it is an ASCII letter or digit, `_` or a backtick. |
| VerilogStream.Next | ctags/parsers/geany_verilog.c:120-161 | Every logical character read consumes input, and an empty stream is end of input. |
| VerilogStream.NextPlain | ctags/parsers/geany_verilog.c:120-129 | A character other than `/` and `"` is returned as itself and consumes only itself. |
| VerilogStream.AfterLineFirst | ctags/parsers/geany_verilog.c:137-139 | The `//` body loop stops at the first newline and consumes it. Without a newline it reaches end of input. |
| VerilogStream.AfterQuoteFirst | ctags/parsers/geany_verilog.c:153-155 | The string body loop stops at the first quote and consumes it. Without one it consumes the rest. |
| VerilogStream.AfterCommentFirst | ctags/parsers/geany_verilog.c:143 | A block comment body is consumed through its first close. Without a close it reaches end of input. |
| VerilogStream.PushbackRoundTrip | ctags/parsers/geany_verilog.c:114-129 | A plain character pushed back with `vUngetc` is the next character `vGetc` returns, and the stream behind it is unchanged. |
| VerilogStream.LineCommentElided | ctags/parsers/geany_verilog.c:135-140 | `//` consumes everything up to the next newline and returns that newline. Without a newline it is end of input. |
| VerilogStream.StringElided | ctags/parsers/geany_verilog.c:150-157 | A string literal reads as one `@` and consumes its closing quote. An unterminated one reads as `@` and consumes the rest. |
| VerilogStream.BlockCommentElided | ctags/parsers/geany_verilog.c:141-144 | A block comment is skipped through its first close, and the raw character after it is returned. An unclosed comment, or one closed at the end of input, is end of input. |
| VerilogStream.LoneSlash | ctags/parsers/geany_verilog.c:130-148 | A `/` that opens no comment reads as `/`, and the peeked character is pushed back to the host reader, so it is left unread. A `/` at the very end is end of input. |
| VerilogGrammar.SkipWhite | ctags/parsers/geany_verilog.c:168-173 | The character returned is never white space. A character that is not white space is returned at once, with nothing consumed. That only white space is consumed is `VerilogProperties.SkipWhiteRun`. |
| VerilogGrammar.SkipPastMatch | ctags/parsers/geany_verilog.c:175-190 | A successful skip consumes at least the closing bracket and the character after it. |
| VerilogGrammar.RunFrom | ctags/parsers/geany_verilog.c:195-203 | The run read holds only identifier characters, starts with the first character, and is ended by a character that is not an identifier character. |
| VerilogGrammar.ReadIdentifier | ctags/parsers/geany_verilog.c:192-205 | An identifier is found exactly when the first character is alphanumeric, `_` or a backtick. Its name is then a non-empty word starting with that character. Otherwise the name is empty and nothing is consumed. |
| VerilogGrammar.SkipValue | ctags/parsers/geany_verilog.c:233-235 | The value loop stops only at a `,` or a `;`, and consumes it. |
| VerilogGrammar.AfterName | ctags/parsers/geany_verilog.c:222-237 | What follows a name always consumes at least one character. |
| VerilogGrammar.NameSeparator | ctags/parsers/geany_verilog.c:222-244 | The separator consumes input, and one more character when another name follows. So the `repeat` loop of the name list terminates. |
| VerilogGrammar.NameList | ctags/parsers/geany_verilog.c:207-248 | Every tag of a name list has the list's kind and a non-empty identifier as its name. A first character that starts no name emits nothing and is pushed back. |
| VerilogGrammar.Directive | ctags/parsers/geany_verilog.c:253-264 | A `` `define `` line emits at most one tag, of the directive's kind. |
| VerilogGrammar.RestOfLine | ctags/parsers/geany_verilog.c:260-262 | The loop over the rest of a line consumes at least its newline. |
| VerilogGrammar.Declaration | ctags/parsers/geany_verilog.c:265-288 | Every tag a declaration emits has the keyword's kind. |
| VerilogGrammar.DeclarationHead | ctags/parsers/geany_verilog.c:267-285 | The head of a declaration always consumes at least one character. |
| VerilogGrammar.FindTag | ctags/parsers/geany_verilog.c:250-289 | Every tag emitted has the kind the table gives the identifier. An identifier that is not in the table emits nothing and consumes nothing. |
| VerilogGrammar.Scan | ctags/parsers/geany_verilog.c:291-320 | No tag of the driver ever has the `Undefined` kind. |
| VerilogGrammar.AtStatementStart | ctags/parsers/geany_verilog.c:312-316 | The `default:` arm at a statement start never emits a tag of the `Undefined` kind. |
| VerilogScanner.Scanner.GetcRaw | ctags/parsers/geany_verilog.c:123 | The host reader returns its pushed-back raw character first, then the next input character. At the end of the input it returns end of input. |
| VerilogScanner.Scanner.constructor | ctags/parsers/geany_verilog.c:293-295 | A scan starts with the whole text pending, an empty pushback slot, an empty name buffer and no tags. |
| VerilogScanner.Scanner.UngetcRaw | ctags/parsers/geany_verilog.c:147 | A raw character pushed back to the host reader is the next one it delivers. |
| VerilogScanner.Scanner.SkipOverCComment | ctags/parsers/geany_verilog.c:141-143 | The comment body is consumed through its first close, and the raw character after it is returned. |
| VerilogScanner.Scanner.VUngetc | ctags/parsers/geany_verilog.c:114-118 | It needs an empty slot and puts the character in front of the pending stream, so with `VerilogStream.PushbackRoundTrip` the pushed-back character is the next one `vGetc` returns. |
| VerilogScanner.Scanner.SkipLineComment | ctags/parsers/geany_verilog.c:135-140 | The loop after `//` consumes raw characters through the next newline, or runs to end of input. |
| VerilogScanner.Scanner.SkipString | ctags/parsers/geany_verilog.c:150-156 | The loop after `"` consumes raw characters through the closing quote, or to the end. |
| VerilogScanner.Scanner.VGetc | ctags/parsers/geany_verilog.c:120-161 | It returns the logical character `Next` gives for the old pending stream and leaves the rest pending. A pushed-back character is read first, and the slot is left empty. |
| VerilogScanner.Scanner.SkipWhite | ctags/parsers/geany_verilog.c:168-173 | It does what `VerilogGrammar.SkipWhite` says, and touches nothing when the character is not white space. |
| VerilogScanner.Scanner.SkipPastMatch | ctags/parsers/geany_verilog.c:175-190 | The loop counts the level from 1 and stops where `VerilogGrammar.SkipPastMatch` does. It returns the same character and leaves the same stream pending. |
| VerilogScanner.Scanner.ReadIdentifier | ctags/parsers/geany_verilog.c:192-205 | The buffer and the result are those of `VerilogGrammar.ReadIdentifier`, and the terminator is pushed back. When no identifier starts, the reader is untouched. |
| VerilogScanner.Scanner.SkipAfterName | ctags/parsers/geany_verilog.c:222-237 | What follows a name is skipped as `VerilogGrammar.AfterName` says: white space, a dimension, and an initializer up to `,` or `;`, or up to the kept `{`. |
| VerilogScanner.Scanner.SkipNameSeparator | ctags/parsers/geany_verilog.c:222-244 | It says whether another name follows and at which character, as `VerilogGrammar.NameSeparator` does. |
| VerilogScanner.Scanner.TagOneName | ctags/parsers/geany_verilog.c:215-244 | One round of the `repeat` loop emits the name's tag. What is left of `VerilogGrammar.NameList` is what follows the separator. |
| VerilogScanner.Scanner.TagNameList | ctags/parsers/geany_verilog.c:207-248 | The tags appended are exactly `VerilogGrammar.NameList`'s. The character that ends the list is left pending. |
| VerilogScanner.Scanner.SkipDeclarationHead | ctags/parsers/geany_verilog.c:267-285 | The width `(..)`, the range `[..]`, the parameters `#(..)` and the white space between them are skipped as `VerilogGrammar.DeclarationHead` says. |
| VerilogScanner.Scanner.SkipRestOfLine | ctags/parsers/geany_verilog.c:259-263 | The rest of the line is consumed through its newline, and that newline is pushed back. |
| VerilogScanner.Scanner.TagDirective | ctags/parsers/geany_verilog.c:253-264 | The tags appended and the stream left are `VerilogGrammar.Directive`'s. |
| VerilogScanner.Scanner.TagDeclaration | ctags/parsers/geany_verilog.c:265-288 | The tags appended and the stream left are `VerilogGrammar.Declaration`'s. |
| VerilogScanner.Scanner.FindTag | ctags/parsers/geany_verilog.c:250-289 | The tags appended and the stream left are `VerilogGrammar.FindTag`'s for the buffered name. |
| VerilogScanner.Scanner.FindVerilogTags | ctags/parsers/geany_verilog.c:291-320 | The tags appended over the whole input are exactly `VerilogGrammar.Scan(true, ..)`. |
| VerilogScanner.TagFile | ctags/parsers/geany_verilog.c:291-320 | Scanning a whole text yields exactly `VerilogGrammar.Scan(true, text)`. |
| VerilogProperties.RunFromWordThen | ctags/parsers/geany_verilog.c:195-203 | From the first character of a word, the run read is the whole word, ended by whatever logical character the stream after it yields. That includes the `@` of a string. |
| VerilogProperties.RunFromWord | ctags/parsers/geany_verilog.c:195-203 | From the first character of a word, the run read is the whole word, ended by the next character. |
| VerilogProperties.ReadWord | ctags/parsers/geany_verilog.c:192-205 | `readIdentifier` on a word followed by a non-identifier character reads the whole word. That character is pushed back, so only the word is consumed. |
| VerilogProperties.IdentifierIsPlain | ctags/parsers/geany_verilog.c:163-166 | An identifier character is never a comment or string opener, never white space and never `'\0'`. So it passes through `vGetc` and the pushback slot unchanged. |
| VerilogProperties.SkipWhiteRun | ctags/parsers/geany_verilog.c:168-173 | From white space, `skipWhite` consumes the whole run of white space and nothing more. It returns the first character that is not white space, for a plain character (neither `/` nor `"`). |
| VerilogProperties.SkipsToMatch | ctags/parsers/geany_verilog.c:175-190 | When text keeps the level open and leaves it at 1, the skip stops exactly at the close after it, which brings the level to zero. It then returns the character after that close. |
| VerilogProperties.NoBrackets | ctags/parsers/geany_verilog.c:183-186 | Text without either bracket leaves the level unchanged. |
| VerilogProperties.RangeSkipped | ctags/parsers/geany_verilog.c:223-224 | A range `[r]` without nested brackets is skipped, and the character after `]` is returned. |
| VerilogProperties.ScanByNext | ctags/parsers/geany_verilog.c:298-300 | Proof step: the driver depends on the input only through the logical characters `vGetc` yields. |
| VerilogProperties.ScanSkipsLineComment | ctags/parsers/geany_verilog.c:135-140 | A `//` comment emits nothing, whatever it contains, and its newline starts a statement. |
| VerilogProperties.ScanSkipsString | ctags/parsers/geany_verilog.c:150-157 | A string literal emits nothing, whatever it contains, and ends the statement start. |
| VerilogProperties.ScanSkipsBlockComment | ctags/parsers/geany_verilog.c:141-144 | A block comment emits nothing, and when the character after `*/` is neither `/` nor `"`, scanning resumes at that character. |
| VerilogProperties.CommentCloseExposes | ctags/parsers/geany_verilog.c:141-160 | When the character after `*/` is `/` or `"`, it is returned as itself, so the comment or string it opens is not skipped and its text is scanned mid-statement. |
| VerilogProperties.CommentAfterComment | ctags/parsers/geany_verilog.c:141-160 | After an empty block comment, `/*;wire a, b, c;` is scanned as ordinary text, and the nets a, b and c are tagged. |
| VerilogProperties.MidStatementIgnored | ctags/parsers/geany_verilog.c:312-316 | In the middle of a statement, text free of `/` and `"` and without `;` or a newline emits nothing, keywords included. |
| VerilogProperties.StatementBoundaries | ctags/parsers/geany_verilog.c:301-311 | `;` and newline start a statement. A space or a tab leaves the flag as it was. |
| VerilogProperties.OtherCharacterEndsStart | ctags/parsers/geany_verilog.c:312-316 | Any other plain character (neither `/` nor `"`) that starts no identifier clears the statement start and emits nothing. |
| VerilogProperties.ScanIdentifierStart | ctags/parsers/geany_verilog.c:312-313 | Proof step: an identifier character read at a statement start is handed to `readIdentifier`. |
| VerilogProperties.AtStatementStartFound | ctags/parsers/geany_verilog.c:313-315 | Proof step: an identifier read at a statement start is classified by `findTag`, and the scan resumes mid-statement after it. |
| VerilogProperties.ScanAtWord | ctags/parsers/geany_verilog.c:312-315 | A word at a statement start is read whole and classified by `findTag`. Scanning then resumes mid-statement. |
| VerilogProperties.UnlistedIgnored | ctags/parsers/geany_verilog.c:313-315 | An identifier missing from the table emits nothing. The character after it is read as the rest of the statement. |
| VerilogProperties.KeywordIsWord | ctags/parsers/geany_verilog.c:69-96 | Any text the table classifies is a word. |
| VerilogProperties.FindTagDeclares | ctags/parsers/geany_verilog.c:252-265 | A keyword that is not a directive goes to the declaration branch. |
| VerilogProperties.ScanAtDeclaration | ctags/parsers/geany_verilog.c:265-288 | A declaration keyword at a statement start emits what its declaration emits, then resumes mid-statement. |
| VerilogProperties.SeparatorAtSemicolon | ctags/parsers/geany_verilog.c:238-244 | Proof step: a `;` after a name ends the list. |
| VerilogProperties.SeparatorAtComma | ctags/parsers/geany_verilog.c:238-241 | `, ` after a name goes on to the next name. |
| VerilogProperties.NameListJoined | ctags/parsers/geany_verilog.c:207-248 | Names separated by `, ` and ended by `;` give one tag per name, in order, and the `;` is pushed back. |
| VerilogProperties.HeadBlank | ctags/parsers/geany_verilog.c:267 | After a single blank, the first name starts at once. |
| VerilogProperties.HeadRange | ctags/parsers/geany_verilog.c:267-278 | A bracket-free range ` [r] ` is skipped before the first name. |
| VerilogProperties.DeclarationAfterHead | ctags/parsers/geany_verilog.c:285-287 | Proof step: once the head stops at an identifier character, the declaration is the name list starting there. |
| VerilogProperties.BlankDeclaration | ctags/parsers/geany_verilog.c:265-288 | ` a, b, c;` after a keyword tags the names in order and leaves `;` pending. |
| VerilogProperties.RangedDeclaration | ctags/parsers/geany_verilog.c:269-287 | ` [r] a, b, c;` does the same after the range. |
| VerilogProperties.ResumeAtSemicolon | ctags/parsers/geany_verilog.c:303-306 | Proof step: the `;` a declaration leaves pending starts the next statement. |
| VerilogProperties.DeclaredNames | ctags/parsers/geany_verilog.c:207-248 | `kw a, b, c;` at a statement start emits one tag of the keyword's kind per name, in order. The statement after it is scanned from its start. |
| VerilogProperties.DeclaredRangedNames | ctags/parsers/geany_verilog.c:269-287 | The same holds for `kw [r] a, b, c;`. |
| VerilogProperties.BlankBeforeName | ctags/parsers/geany_verilog.c:285 | A blank before a name is skipped, and the name's first character is returned. |
| VerilogProperties.ParenSkipped | ctags/parsers/geany_verilog.c:273-274 | A parenthesis-free `w)` is skipped through its `)`, and the character after it is returned. |
| VerilogProperties.HeadWidth | ctags/parsers/geany_verilog.c:267-275 | A width ` (w) ` after a keyword is skipped, and the head stops at the first name. |
| VerilogProperties.HeadParameters | ctags/parsers/geany_verilog.c:279-285 | A parameter list ` #(w) ` after a keyword is skipped, and the head stops at the first name. |
| VerilogProperties.WidthDeclaration | ctags/parsers/geany_verilog.c:267-287 | ` (w) a, b, c;` tags the names in order after the width, and leaves `;` pending. |
| VerilogProperties.ParameterisedDeclaration | ctags/parsers/geany_verilog.c:279-287 | ` #(w) a, b, c;` tags the names in order after the parameter list, and leaves `;` pending. |
| VerilogProperties.DeclaredWideNames | ctags/parsers/geany_verilog.c:265-288 | `kw (w) a, b, c;` at a statement start emits one tag of the keyword's kind per name, in order, then scans the next statement from its start. |
| VerilogProperties.DeclaredParameterisedNames | ctags/parsers/geany_verilog.c:265-288 | The same holds for `kw #(w) a, b, c;`. |
| VerilogProperties.SeparatorAfterDimension | ctags/parsers/geany_verilog.c:222-241 | A dimension ` [r]` after a name is skipped, and the `, ` after it goes on to the next name. |
| VerilogProperties.DimensionedDeclaration | ctags/parsers/geany_verilog.c:207-248 | ` a [r], b;` tags `a` and `b`, skipping the dimension of `a`, and leaves `;` pending. |
| VerilogProperties.DimensionedNames | ctags/parsers/geany_verilog.c:222-245 | `kw a [r], b;` at a statement start tags exactly `a` and `b`. |
| VerilogProperties.SkipValuePlain | ctags/parsers/geany_verilog.c:233-235 | The value loop reads through the first `,` or `;`. |
| VerilogProperties.AfterValue | ctags/parsers/geany_verilog.c:226-236 | An unbraced initializer ` = v` is skipped through the `,` or `;` that ends it, and that character decides what follows. |
| VerilogProperties.SeparatorAfterValue | ctags/parsers/geany_verilog.c:226-241 | After an initializer ended by `,`, the next name follows. |
| VerilogProperties.SeparatorAfterFinalValue | ctags/parsers/geany_verilog.c:226-244 | An initializer ended by `;` ends the list. |
| VerilogProperties.InitializedDeclaration | ctags/parsers/geany_verilog.c:207-248 | ` a = v, b;` tags `a` and `b` and skips the value. |
| VerilogProperties.InitializedNames | ctags/parsers/geany_verilog.c:226-241 | `kw a = v, b;` at a statement start tags exactly `a` and `b`. |
| VerilogProperties.InitializedDeclarationLast | ctags/parsers/geany_verilog.c:226-247 | ` a = v;` tags `a` alone and leaves `;` pending. |
| VerilogProperties.InitializedName | ctags/parsers/geany_verilog.c:226-247 | `kw a = v;` at a statement start tags `a` alone. |
| VerilogProperties.ParameterExample | ctags/parsers/geany_verilog.c:226-247 | `parameter WIDTH = 8;` gives the one constant `WIDTH`. |
| VerilogProperties.WireExample | ctags/parsers/geany_verilog.c:207-248 | `wire a, b, c;` gives the nets `a`, `b`, `c`, in that order. |
| VerilogProperties.RegExample | ctags/parsers/geany_verilog.c:269-271 | `reg [3:0] net_name;` gives the one register `net_name`. |
| VerilogProperties.InoutExample | ctags/parsers/geany_verilog.c:269-277 | ``inout [(`DBUSWIDTH-1):0] databus;`` gives the one port `databus`. |
| VerilogProperties.WireArrayExample | ctags/parsers/geany_verilog.c:222-245 | `wire a [0:3], b;` gives the nets `a` and `b`. |
| VerilogProperties.RestOfLinePlain | ctags/parsers/geany_verilog.c:259-262 | The rest of a directive line is consumed through its newline. |
| VerilogProperties.FindTagDefine | ctags/parsers/geany_verilog.c:252-253 | Proof step: `` `define `` goes to the directive branch. |
| VerilogProperties.DirectiveLine | ctags/parsers/geany_verilog.c:253-264 | ` NAME value` after `` `define `` tags NAME and leaves the newline pending. |
| VerilogProperties.ResumeAtNewline | ctags/parsers/geany_verilog.c:303-306 | Proof step: the newline a directive leaves pending starts the next statement. |
| VerilogProperties.DefineLine | ctags/parsers/geany_verilog.c:253-264 | `` `define NAME value `` emits exactly one constant, NAME, for a rest of line free of `/` and `"`, and the next line starts a statement. With a `"` or `/` the next line need not be scanned: see `VerilogProperties.DefineOpenString`. |
| VerilogProperties.DefineExample | ctags/parsers/geany_verilog.c:253-264 | `` `define FOO 1 `` gives the one constant `FOO`. |
| VerilogProperties.DirectiveOpenString | ctags/parsers/geany_verilog.c:253-264 | A directive ` NAME "s` with no closing quote tags NAME, and the rest-of-line loop then reaches end of input, because the string runs to the end. |
| VerilogProperties.DefineOpenString | ctags/parsers/geany_verilog.c:253-264 | `` `define NAME "s `` with no closing quote emits NAME alone, whatever `s` holds on its later lines. |
| VerilogProperties.DefineOpenStringExample | ctags/parsers/geany_verilog.c:253-264 | `` `define FOO " `` followed by the line `wire a;` tags FOO only: `a` is never tagged. |
| VerilogProperties.HeadSemicolon | ctags/parsers/geany_verilog.c:267-285 | Proof step: a lone `;` after a keyword is the character the head ends at. |
| VerilogProperties.DroppedTerminator | ctags/parsers/geany_verilog.c:285-287 | After a bare keyword, `;` is consumed and dropped, so what follows is not a statement start. |
| VerilogProperties.NameListMore | ctags/parsers/geany_verilog.c:215-245 | Proof step: one round of the `repeat` loop when another name follows is this name's tag, then the rest of the list. |
| VerilogProperties.NameListLast | ctags/parsers/geany_verilog.c:215-247 | Proof step: the last round of the `repeat` loop is this name's tag, with the separator character pushed back. |
| VerilogProperties.RunToEnd | ctags/parsers/geany_verilog.c:197-201 | A word that runs to the end of the input is end of input. |
| VerilogProperties.NameListAtEnd | ctags/parsers/geany_verilog.c:215-218 | A name still being read when the input ends is not tagged. |
| VerilogProperties.DirectiveAtEnd | ctags/parsers/geany_verilog.c:253-264 | A directive whose name runs into end of input emits no tag: `readIdentifier` reaches end of input before `makeSimpleTag`. |
| VerilogProperties.DefineAtEnd | ctags/parsers/geany_verilog.c:253-264 | `` `define NAME `` at the very end of the input emits nothing. |
| VerilogProperties.TruncatedDeclaration | ctags/parsers/geany_verilog.c:207-248 | ` a, b` cut off by the end of input tags `a` only. |
| VerilogProperties.TruncatedList | ctags/parsers/geany_verilog.c:296-298 | End of input ends the scan and keeps the tags emitted before it: `kw a, b` tags `a` only. |
| VerilogProperties.NameBeforeOpenString | ctags/parsers/geany_verilog.c:150-157 | ` n"s` with an unterminated string tags `n`. The string's `@` ends the name and is pushed back. |
| VerilogProperties.ResumeAtLastCharacter | ctags/parsers/geany_verilog.c:298-316 | The `@` left pending is read mid-statement, and the scan then ends with the tags it has. |
| VerilogProperties.OpenStringKeepsName | ctags/parsers/geany_verilog.c:156-159 | `kw n"s` with an unterminated string tags `n`: the string's `@` is returned before the next read ends the scan. A name cut off by end of input is not tagged (`NameListAtEnd`). |
| VerilogProperties.BracedSeparator | ctags/parsers/geany_verilog.c:226-230 | After ` = {v},` the `{` is the character kept, and the `,` after the closing brace is consumed and dropped, so no further name follows. |
| VerilogProperties.BracedDeclaration | ctags/parsers/geany_verilog.c:229-247 | ` a = {v}, t` tags `a` only and pushes the `{` back. |
| VerilogProperties.BracedInitializerEndsList | ctags/parsers/geany_verilog.c:229-247 | `kw a = {v}, t` tags `a` only, and `t` is then scanned mid-statement, so a later name is not tagged. |

## Left out

- `initialize` and `addKeyword` (lines 102-112), and `VerilogParser` (lines 322-332), are registration with the ctags framework. The keyword table is used directly.
- The keyword hash table is modelled as a linear search of the table. Its entries are distinct, so a first-match search classifies as the hash does.
- `makeSimpleTag` is the tag sink. It is modelled as appending to the `tags` field, even when the `` `define `` branch reads an empty name. The sink's own filtering is not part of this model.
- `getcFromInputFile` and `ungetcToInputFile` are host I/O. They are modelled as a cursor over the input sequence plus one slot of raw pushback.
- `lcppSkipOverCComment` is a foreign routine. It is modelled as consuming through the first `*` `/` and returning the raw character after it, or end of input.
- ScanSkipsBlockComment: no identifier inside a comment or string is tagged, except when that comment or string opens right after a `*/`. The foreign routine's result is returned by `vGetc` without elision, so a `/` or `"` there is an ordinary character (`CommentCloseExposes`, `CommentAfterComment`).
- The `setjmp`/`longjmp` exit is modelled as the `Eof` outcome, which every method propagates.
- `isalnum` and `isspace` use the C locale's ASCII classes. Extended-character and locale behaviour is not modelled.
- Characters are Dafny `char`, and the integer `EOF` value is the `Eof` outcome.
- A pushed-back `'\0'` is lost, as the slot uses it for "empty". The model keeps this, but no lemma is about it.
- `vString` allocation and freeing are not modelled. The identifier buffer is one `seq<char>` field, as the source shares one buffer.
- `Assert (isIdentifierCharacter (c))` in `tagNameList` and `Assert (Ungetc == '\0')` in `vUngetc` are preconditions of the modelled methods.
- Line numbers, file positions and tag fields other than name and kind are not modelled.
