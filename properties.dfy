/**
 * What the scanner does to whole pieces of Verilog text: identifiers are read
 * whole, brackets are skipped to their match, comments and strings hide what
 * is inside them, a mid-statement keyword is never classified, and a
 * declaration or a `` `define `` line yields its tags in order.
 */
module VerilogProperties {
  import opened VerilogKinds
  import opened VerilogStream
  import opened VerilogGrammar

  /** Names written as a declaration list: separated by a comma and a space. */
  function Joined(names: seq<string>): string
    requires |names| > 0
  {
    if |names| == 1 then names[0] else names[0] + [',', ' '] + Joined(names[1..])
  }

  /** One tag of `kind` per name, in order. */
  function Tags(names: seq<string>, kind: Kind): (r: seq<Tag>)
    ensures |r| == |names|
    ensures forall i :: 0 <= i < |r| ==> r[i] == Tag(names[i], kind)
  {
    if names == [] then [] else [Tag(names[0], kind)] + Tags(names[1..], kind)
  }

  /** Every name is a word (non-empty, identifier characters only). */
  predicate AllWords(names: seq<string>) {
    forall i :: 0 <= i < |names| ==> IsWord(names[i])
  }

  /** Identifier characters pass through the character adapter unchanged. */
  lemma IdentifierIsPlain(c: char)
    requires IsIdentifierCharacter(c)
    ensures IsPlain(c) && !IsSpace(c) && c != '\0'
  {
  }

  /** A joined list starts with the first name's first character and is plain text. */
  lemma {:induction false} JoinedShape(names: seq<string>)
    requires |names| > 0 && AllWords(names)
    ensures |Joined(names)| > 0 && Joined(names)[0] == names[0][0]
    ensures IsIdentifierCharacter(Joined(names)[0])
    ensures IsPlainText(Joined(names))
    ensures forall i :: 0 <= i < |Joined(names)| ==> Joined(names)[i] != ';' && Joined(names)[i] != '\n'
  {
    var n := names[0];
    assert IsWord(n);
    if |names| > 1 {
      JoinedShape(names[1..]);
      var j := Joined(names[1..]);
      assert Joined(names) == n + [',', ' '] + j;
      forall i | 0 <= i < |Joined(names)|
        ensures IsPlain(Joined(names)[i]) && Joined(names)[i] != ';' && Joined(names)[i] != '\n'
      {
        if i >= |n| + 2 {
          assert Joined(names)[i] == j[i - |n| - 2];
        } else if i < |n| {
          assert Joined(names)[i] == n[i];
        }
      }
    }
  }

  // ---------------------------------------------------------------------------
  // skipWhite
  // ---------------------------------------------------------------------------

  /**
   * skipWhite consumes white space and nothing else: from a white-space `c`,
   * the run `ws` of white space after it is skipped and the first other
   * character `x` is returned.
   */
  lemma {:induction false} SkipWhiteRun(c: char, ws: seq<char>, x: char, t: seq<char>)
    requires IsSpace(c) && !IsSpace(x) && IsPlain(x)
    requires forall i :: 0 <= i < |ws| ==> IsSpace(ws[i])
    ensures SkipWhite(c, ws + [x] + t) == Ok(Read(x, t))
    decreases |ws|
  {
    if ws == [] {
      assert ws + [x] + t == [x] + t;
      NextPlain(x, t);
    } else {
      assert ws + [x] + t == [ws[0]] + (ws[1..] + [x] + t);
      NextPlain(ws[0], ws[1..] + [x] + t);
      SkipWhiteRun(ws[0], ws[1..], x, t);
    }
  }

  // ---------------------------------------------------------------------------
  // readIdentifier
  // ---------------------------------------------------------------------------

  /**
   * From the first character of a word, the run read is the whole word; it is
   * ended by whatever logical character `x` the stream after the word yields.
   */
  lemma {:induction false} RunFromWordThen(w: string, p: seq<char>, x: char, t: seq<char>)
    requires IsWord(w) && Next(p) == Ok(Read(x, t)) && !IsIdentifierCharacter(x)
    ensures RunFrom(w[0], w[1..] + p) == Ok(Word(w, x, t))
    decreases |w|
  {
    if |w| == 1 {
      assert w[1..] + p == p;
      assert [w[0]] + [] == w;
    } else {
      var w' := w[1..];
      assert IsWord(w');
      IdentifierIsPlain(w[1]);
      assert w[1..] + p == [w'[0]] + (w'[1..] + p);
      NextPlain(w'[0], w'[1..] + p);
      RunFromWordThen(w', p, x, t);
      assert [w[0]] + w' == w;
    }
  }

  /** From the first character of a word, the run read is the whole word and it stops at a plain `x`. */
  lemma RunFromWord(w: string, x: char, t: seq<char>)
    requires IsWord(w) && !IsIdentifierCharacter(x) && IsPlain(x)
    ensures RunFrom(w[0], w[1..] + [x] + t) == Ok(Word(w, x, t))
  {
    NextPlain(x, t);
    assert w[1..] + [x] + t == w[1..] + ([x] + t);
    RunFromWordThen(w, [x] + t, x, t);
  }

  /**
   * readIdentifier on a word followed by a character `x` that ends it: the
   * whole word is read and `x` is pushed back, so nothing but the word is
   * consumed.
   */
  lemma ReadWord(w: string, x: char, t: seq<char>)
    requires IsWord(w) && !IsIdentifierCharacter(x) && IsPlain(x) && x != '\0'
    ensures ReadIdentifier(w[0], w[1..] + [x] + t) == Ok(Ident(true, w, [x] + t))
  {
    RunFromWord(w, x, t);
  }

  // ---------------------------------------------------------------------------
  // skipPastMatch
  // ---------------------------------------------------------------------------

  /** The nesting level after reading all of `s`. */
  function LevelAfter(open: char, close: char, level: int, s: seq<char>): int
    decreases |s|
  {
    if s == [] then level else LevelAfter(open, close, Level(open, close, level, s[0]), s[1..])
  }

  /** Reading `s` from `level` never brings the level down to zero. */
  predicate StaysOpen(open: char, close: char, level: int, s: seq<char>)
    decreases |s|
  {
    s == [] || (Level(open, close, level, s[0]) > 0 && StaysOpen(open, close, Level(open, close, level, s[0]), s[1..]))
  }

  /**
   * skipPastMatch reads exactly up to the close that brings the level to
   * zero, and returns the character after it: when `s` keeps the level open
   * and leaves it at 1, the close that follows is the matching one.
   */
  lemma {:induction false} SkipsToMatch(open: char, close: char, level: nat, s: seq<char>, x: char, t: seq<char>)
    requires level >= 1 && open != close && IsPlain(close) && IsPlain(x) && IsPlainText(s)
    requires StaysOpen(open, close, level, s) && LevelAfter(open, close, level, s) == 1
    ensures SkipPastMatch(open, close, level, s + [close, x] + t) == Ok(Read(x, t))
    decreases |s|
  {
    if s == [] {
      assert s + [close, x] + t == [close] + ([x] + t);
      NextPlain(close, [x] + t);
      NextPlain(x, t);
    } else {
      assert s + [close, x] + t == [s[0]] + (s[1..] + [close, x] + t);
      NextPlain(s[0], s[1..] + [close, x] + t);
      var next := Level(open, close, level, s[0]);
      SkipsToMatch(open, close, next, s[1..], x, t);
    }
  }

  /** Text without either bracket leaves the level as it is and never closes. */
  lemma {:induction false} NoBrackets(open: char, close: char, level: int, s: seq<char>)
    requires level > 0
    requires forall i :: 0 <= i < |s| ==> s[i] != open && s[i] != close
    ensures StaysOpen(open, close, level, s) && LevelAfter(open, close, level, s) == level
    decreases |s|
  {
    if s != [] {
      NoBrackets(open, close, level, s[1..]);
    }
  }

  /** A range `[r]` without nested brackets is skipped and the character after `]` is returned. */
  lemma RangeSkipped(r: seq<char>, x: char, t: seq<char>)
    requires IsPlainText(r) && IsPlain(x)
    requires forall i :: 0 <= i < |r| ==> r[i] != '[' && r[i] != ']'
    ensures SkipPastMatch('[', ']', 1, r + [']', x] + t) == Ok(Read(x, t))
  {
    NoBrackets('[', ']', 1, r);
    SkipsToMatch('[', ']', 1, r, x, t);
  }

  // ---------------------------------------------------------------------------
  // The driver: what findVerilogTags makes of whole pieces of text
  // ---------------------------------------------------------------------------

  /** The scan depends on the pending stream only through the next logical character it yields. */
  lemma ScanByNext(ns: bool, p: seq<char>, p': seq<char>)
    requires Next(p) == Next(p')
    ensures Scan(ns, p) == Scan(ns, p')
  {
  }

  /** A `//` comment ends the statement at its newline, whatever it contains. */
  lemma ScanSkipsLineComment(ns: bool, s: seq<char>, t: seq<char>)
    requires forall i :: 0 <= i < |s| ==> s[i] != '\n'
    ensures Scan(ns, ['/', '/'] + s + ['\n'] + t) == Scan(true, t)
  {
    LineCommentElided(s, t);
  }

  /** A string literal counts as one non-blank character, whatever it contains. */
  lemma ScanSkipsString(ns: bool, s: seq<char>, t: seq<char>)
    requires forall i :: 0 <= i < |s| ==> s[i] != '"'
    ensures Scan(ns, ['"'] + s + ['"'] + t) == Scan(false, t)
  {
    StringElided(s, t);
  }

  /** A block comment followed by a plain character scans as that character alone. */
  lemma ScanSkipsBlockComment(ns: bool, s: seq<char>, x: char, t: seq<char>)
    requires NoCommentClose(s) && IsPlain(x)
    ensures Scan(ns, ['/', '*'] + s + ['*', '/'] + [x] + t) == Scan(ns, [x] + t)
  {
    BlockCommentElided(s, x, t);
    NextPlain(x, t);
    ScanByNext(ns, ['/', '*'] + s + ['*', '/'] + [x] + t, [x] + t);
  }

  /**
   * The raw character after `*` `/` is returned without elision: when it is
   * a '/' or a '"', the comment or string it opens is not skipped, and its
   * text `t` is scanned as ordinary text from the middle of a statement.
   */
  lemma CommentCloseExposes(ns: bool, s: seq<char>, x: char, t: seq<char>)
    requires NoCommentClose(s) && (x == '/' || x == '"')
    ensures Scan(ns, ['/', '*'] + s + ['*', '/'] + [x] + t) == Scan(false, t)
  {
    BlockCommentElided(s, x, t);
  }

  /** The text of an empty block comment, then '/' '*' ';' and `wire a, b, c;`, split after the comment and its '/'. */
  lemma CommentAfterCommentText(q: seq<char>)
    ensures ['/', '*', '*', '/', '/', '*', ';'] + ("wire a, b, c;" + q) == ['/', '*'] + [] + ['*', '/'] + ['/'] + (['*'] + ([';'] + ("wire a, b, c;" + q)))
    ensures NoCommentClose([])
  {
  }

  /**
   * A declaration inside a block comment that opens right after another
   * one is tagged: after an empty block comment, '/' '*' opens no comment,
   * so `;wire a, b, c;` is scanned and declares three nets.
   */
  lemma CommentAfterComment(q: seq<char>)
    ensures Scan(true, ['/', '*', '*', '/', '/', '*', ';'] + ("wire a, b, c;" + q)) == [Tag("a", Net), Tag("b", Net), Tag("c", Net)] + Scan(true, q)
  {
    var rest := [';'] + ("wire a, b, c;" + q);
    CommentAfterCommentText(q);
    CommentCloseExposes(true, [], '/', ['*'] + rest);
    NextPlain('*', rest);
    StatementBoundaries(false, "wire a, b, c;" + q);
    WireExample(q);
  }

  /**
   * Inside a statement, plain text without a ';' or a newline emits nothing,
   * keywords included, and the statement is still not at its start after it.
   */
  lemma {:induction false} MidStatementIgnored(s: seq<char>, q: seq<char>)
    requires IsPlainText(s)
    requires forall i :: 0 <= i < |s| ==> s[i] != ';' && s[i] != '\n'
    ensures Scan(false, s + q) == Scan(false, q)
    decreases |s|
  {
    if s != [] {
      assert s + q == [s[0]] + (s[1..] + q);
      NextPlain(s[0], s[1..] + q);
      assert forall i :: 0 <= i < |s[1..]| ==> s[1..][i] == s[i + 1];
      MidStatementIgnored(s[1..], q);
      assert Scan(false, s + q) == Scan(false, s[1..] + q);
    } else {
      assert s + q == q;
    }
  }

  /** A ';' or a newline starts a statement; a space or a tab leaves the flag as it was. */
  lemma StatementBoundaries(ns: bool, q: seq<char>)
    ensures Scan(ns, [';'] + q) == Scan(true, q)
    ensures Scan(ns, ['\n'] + q) == Scan(true, q)
    ensures Scan(ns, [' '] + q) == Scan(ns, q)
    ensures Scan(ns, ['\t'] + q) == Scan(ns, q)
  {
    NextPlain(';', q);
    NextPlain('\n', q);
    NextPlain(' ', q);
    NextPlain('\t', q);
  }

  /** Any other character that starts no identifier ends the statement start without a tag. */
  lemma OtherCharacterEndsStart(x: char, q: seq<char>)
    requires IsPlain(x) && !IsIdentifierCharacter(x)
    requires x != ';' && x != '\n' && x != ' ' && x != '\t'
    ensures Scan(true, [x] + q) == Scan(false, q)
  {
    NextPlain(x, q);
  }

  /** What the scan yields once findTag has returned `e`: its tags, then the rest of the statement. */
  function Resume(e: Emit): seq<Tag> {
    e.tags + match e.rest { case Eof => [] case Ok(q) => Scan(false, q) }
  }

  /** An identifier character at a statement start hands over to `AtStatementStart`. */
  lemma ScanIdentifierStart(c: char, t: seq<char>)
    requires IsIdentifierCharacter(c)
    ensures Scan(true, [c] + t) == AtStatementStart(c, t)
  {
    NextPlain(c, t);
  }

  /** A statement start that reads an identifier classifies it with findTag and resumes after it. */
  lemma AtStatementStartFound(c: char, t: seq<char>, w: string, q: seq<char>)
    requires ReadIdentifier(c, t) == Ok(Ident(true, w, q))
    ensures AtStatementStart(c, t) == Resume(FindTag(w, q))
  {
  }

  /** A word at a statement start, ended by a plain `x`, is classified whole with `x` still pending. */
  lemma ScanAtWord(w: string, x: char, t: seq<char>)
    requires IsWord(w) && !IsIdentifierCharacter(x) && IsPlain(x) && x != '\0'
    ensures Scan(true, w + [x] + t) == Resume(FindTag(w, [x] + t))
  {
    IdentifierIsPlain(w[0]);
    assert w + [x] + t == [w[0]] + (w[1..] + [x] + t);
    ScanIdentifierStart(w[0], w[1..] + [x] + t);
    ReadWord(w, x, t);
    AtStatementStartFound(w[0], w[1..] + [x] + t, w, [x] + t);
  }

  /**
   * An identifier that is not in the keyword table emits nothing, and the
   * character after it is read as the rest of the statement.
   */
  lemma UnlistedIgnored(w: string, x: char, t: seq<char>)
    requires IsWord(w) && Lookup(w) == Undefined
    requires !IsIdentifierCharacter(x) && IsPlain(x) && x != '\0'
    ensures Scan(true, w + [x] + t) == Scan(false, [x] + t)
  {
    ScanAtWord(w, x, t);
  }

  /** The keyword tagged by a declaration is a word, as every table entry is. */
  lemma KeywordIsWord(kw: string)
    requires Lookup(kw) != Undefined
    ensures IsWord(kw)
  {
    KeywordsAreWords();
    var j :| 0 <= j < |KeywordTable| && KeywordTable[j].text == kw;
  }

  /** findTag hands a keyword other than a directive to the declaration branch. */
  lemma FindTagDeclares(kw: string, p: seq<char>)
    requires Lookup(kw) != Undefined && |kw| > 0 && kw[0] != '`'
    ensures FindTag(kw, p) == Declaration(Lookup(kw), p)
  {
    KeywordIsWord(kw);
  }

  /** A declaration keyword at a statement start: the scan resumes after the declaration. */
  lemma ScanAtDeclaration(kw: string, x: char, t: seq<char>)
    requires Lookup(kw) != Undefined && |kw| > 0 && kw[0] != '`'
    requires !IsIdentifierCharacter(x) && IsPlain(x) && x != '\0'
    ensures Scan(true, kw + [x] + t) == Resume(Declaration(Lookup(kw), [x] + t))
  {
    KeywordIsWord(kw);
    ScanAtWord(kw, x, t);
    FindTagDeclares(kw, [x] + t);
  }

  // ---------------------------------------------------------------------------
  // Declarations
  // ---------------------------------------------------------------------------

  /** The separator after a name that ends the list at `;`. */
  lemma SeparatorAtSemicolon(q: seq<char>)
    ensures NameSeparator([';'] + q) == Ok(Separator(false, ';', q))
  {
    NextPlain(';', q);
  }

  /** The separator ", " between two names, with `s` starting at the next name. */
  lemma SeparatorAtComma(s: seq<char>)
    requires |s| > 0 && IsIdentifierCharacter(s[0])
    ensures NameSeparator([',', ' '] + s) == Ok(Separator(true, s[0], s[1..]))
  {
    IdentifierIsPlain(s[0]);
    assert [',', ' '] + s == [','] + ([' '] + s);
    NextPlain(',', [' '] + s);
    NextPlain(' ', s);
    assert s == [s[0]] + s[1..];
    NextPlain(s[0], s[1..]);
  }

  /** The text of a joined list, split after its first name's first character. */
  lemma JoinedText(n: string, j: seq<char>, q: seq<char>)
    requires |n| > 0
    ensures (n + [',', ' '] + j + [';'] + q)[0] == n[0]
    ensures (n + [',', ' '] + j + [';'] + q)[1..] == n[1..] + [','] + ([' '] + (j + [';'] + q))
    ensures [','] + ([' '] + (j + [';'] + q)) == [',', ' '] + (j + [';'] + q)
  {
    assert n + [',', ' '] + j + [';'] + q == [n[0]] + (n[1..] + [','] + ([' '] + (j + [';'] + q)));
  }

  /**
   * tagNameList on names separated by ", " and ended by ';': one tag per
   * name, in order, and the ';' is pushed back.
   */
  lemma {:induction false} NameListJoined(kind: Kind, names: seq<string>, q: seq<char>)
    requires |names| > 0 && AllWords(names)
    ensures var s := Joined(names) + [';'] + q;
      |s| > 0 && NameList(kind, s[0], s[1..]) == Emit(Tags(names, kind), Ok([';'] + q))
    decreases |names|
  {
    var n := names[0];
    assert IsWord(n);
    JoinedShape(names);
    var s := Joined(names) + [';'] + q;
    if |names| == 1 {
      assert s[1..] == n[1..] + [';'] + q;
      ReadWord(n, ';', q);
      SeparatorAtSemicolon(q);
      assert Tags(names, kind) == [Tag(n, kind)];
    } else {
      var rest := names[1..];
      assert AllWords(rest);
      JoinedShape(rest);
      var s' := Joined(rest) + [';'] + q;
      JoinedText(n, Joined(rest), q);
      assert Joined(names) == n + [',', ' '] + Joined(rest);
      ReadWord(n, ',', [' '] + s');
      SeparatorAtComma(s');
      NameListJoined(kind, rest, q);
      assert Tags(names, kind) == [Tag(n, kind)] + Tags(rest, kind);
    }
  }

  /** Once the head is read up to the first character of a name, the declaration is that name list. */
  lemma DeclarationAfterHead(kind: Kind, p: seq<char>, c: char, t: seq<char>)
    requires DeclarationHead(p) == Ok(Read(c, t)) && IsIdentifierCharacter(c)
    ensures Declaration(kind, p) == NameList(kind, c, t)
  {
  }

  /** A declaration head that is a single blank: the first name starts right after it. */
  lemma HeadBlank(s: seq<char>)
    requires |s| > 0 && IsIdentifierCharacter(s[0])
    ensures DeclarationHead([' '] + s) == Ok(Read(s[0], s[1..]))
  {
    IdentifierIsPlain(s[0]);
    NextPlain(' ', s);
    assert s == [s[0]] + s[1..];
    NextPlain(s[0], s[1..]);
  }

  /** A declaration head ` [r] ` with a bracket-free range: the first name starts after it. */
  lemma HeadRange(r: seq<char>, s: seq<char>)
    requires |s| > 0 && IsIdentifierCharacter(s[0])
    requires IsPlainText(r) && forall i :: 0 <= i < |r| ==> r[i] != '[' && r[i] != ']'
    ensures DeclarationHead([' ', '['] + r + [']', ' '] + s) == Ok(Read(s[0], s[1..]))
  {
    IdentifierIsPlain(s[0]);
    var p := [' ', '['] + r + [']', ' '] + s;
    assert p == [' '] + (['['] + (r + [']', ' '] + s));
    NextPlain(' ', ['['] + (r + [']', ' '] + s));
    NextPlain('[', r + [']', ' '] + s);
    RangeSkipped(r, ' ', s);
    NextPlain(' ', s);
    assert s == [s[0]] + s[1..];
    NextPlain(s[0], s[1..]);
  }

  /** The declaration ` a, b, c;` tags its names in order and leaves the ';' pending. */
  lemma BlankDeclaration(kind: Kind, names: seq<string>, q: seq<char>)
    requires |names| > 0 && AllWords(names)
    ensures Declaration(kind, [' '] + (Joined(names) + [';'] + q)) == Emit(Tags(names, kind), Ok([';'] + q))
  {
    JoinedShape(names);
    var s := Joined(names) + [';'] + q;
    HeadBlank(s);
    DeclarationAfterHead(kind, [' '] + s, s[0], s[1..]);
    NameListJoined(kind, names, q);
  }

  /** The text of a ranged declaration, split after its range. */
  lemma RangedText(r: seq<char>, list: seq<char>, q: seq<char>)
    ensures [' '] + (['['] + r + [']', ' '] + list + [';'] + q) == [' ', '['] + r + [']', ' '] + (list + [';'] + q)
  {
  }

  /** The declaration ` [r] a, b, c;` does the same after skipping the range. */
  lemma RangedDeclaration(kind: Kind, r: seq<char>, names: seq<string>, q: seq<char>)
    requires IsPlainText(r) && forall i :: 0 <= i < |r| ==> r[i] != '[' && r[i] != ']'
    requires |names| > 0 && AllWords(names)
    ensures Declaration(kind, [' '] + (['['] + r + [']', ' '] + Joined(names) + [';'] + q)) == Emit(Tags(names, kind), Ok([';'] + q))
  {
    JoinedShape(names);
    var s := Joined(names) + [';'] + q;
    HeadRange(r, s);
    RangedText(r, Joined(names), q);
    DeclarationAfterHead(kind, [' ', '['] + r + [']', ' '] + s, s[0], s[1..]);
    NameListJoined(kind, names, q);
  }

  /** A ';' left pending by a declaration starts the next statement. */
  lemma ResumeAtSemicolon(tags: seq<Tag>, q: seq<char>)
    ensures Resume(Emit(tags, Ok([';'] + q))) == tags + Scan(true, q)
  {
    StatementBoundaries(false, q);
  }

  /** The text of a declaration, split after the blank that follows its keyword. */
  lemma DeclarationText(kw: string, head: seq<char>, list: seq<char>, q: seq<char>)
    ensures kw + [' '] + list + [';'] + q == kw + [' '] + (list + [';'] + q)
    ensures kw + [' '] + head + list + [';'] + q == kw + [' '] + (head + list + [';'] + q)
  {
  }

  /**
   * A declaration `kw a, b, c;` at a statement start emits one tag of the
   * keyword's kind per name, in order, and the ';' then starts the next
   * statement.
   */
  lemma DeclaredNames(kw: string, names: seq<string>, q: seq<char>)
    requires Lookup(kw) != Undefined && |kw| > 0 && kw[0] != '`'
    requires |names| > 0 && AllWords(names)
    ensures Scan(true, kw + [' '] + Joined(names) + [';'] + q) == Tags(names, Lookup(kw)) + Scan(true, q)
  {
    DeclarationText(kw, [], Joined(names), q);
    ScanAtDeclaration(kw, ' ', Joined(names) + [';'] + q);
    BlankDeclaration(Lookup(kw), names, q);
    ResumeAtSemicolon(Tags(names, Lookup(kw)), q);
  }

  /** The same with a bracket-free range before the names: `kw [r] a, b;`. */
  lemma DeclaredRangedNames(kw: string, r: seq<char>, names: seq<string>, q: seq<char>)
    requires Lookup(kw) != Undefined && |kw| > 0 && kw[0] != '`'
    requires IsPlainText(r) && forall i :: 0 <= i < |r| ==> r[i] != '[' && r[i] != ']'
    requires |names| > 0 && AllWords(names)
    ensures Scan(true, kw + [' '] + (['['] + r + [']', ' ']) + Joined(names) + [';'] + q) == Tags(names, Lookup(kw)) + Scan(true, q)
  {
    DeclarationText(kw, ['['] + r + [']', ' '], Joined(names), q);
    ScanAtDeclaration(kw, ' ', ['['] + r + [']', ' '] + Joined(names) + [';'] + q);
    RangedDeclaration(Lookup(kw), r, names, q);
    ResumeAtSemicolon(Tags(names, Lookup(kw)), q);
  }

  /** A blank before a name is skipped, and the name's first character is returned. */
  lemma BlankBeforeName(s: seq<char>)
    requires |s| > 0 && IsIdentifierCharacter(s[0])
    ensures SkipWhite(' ', s) == Ok(Read(s[0], s[1..]))
  {
    IdentifierIsPlain(s[0]);
    assert s == [s[0]] + s[1..];
    NextPlain(s[0], s[1..]);
  }

  /** A parenthesis-free `w)` is skipped through its ')', and the character after it is returned. */
  lemma ParenSkipped(w: seq<char>, x: char, t: seq<char>)
    requires IsPlainText(w) && IsPlain(x)
    requires forall i :: 0 <= i < |w| ==> w[i] != '(' && w[i] != ')'
    ensures SkipPastMatch('(', ')', 1, w + [')', x] + t) == Ok(Read(x, t))
  {
    NoBrackets('(', ')', 1, w);
    SkipsToMatch('(', ')', 1, w, x, t);
  }

  /** The text of a width head, split the way `DeclarationHead` reads it. */
  lemma WidthText(w: seq<char>, s: seq<char>)
    ensures [' ', '('] + w + [')', ' '] + s == [' '] + (['('] + (w + [')', ' '] + s))
    ensures [' ', '#', '('] + w + [')', ' '] + s == [' '] + (['#'] + (['('] + (w + [')', ' '] + s)))
  {
  }

  /** A declaration head ` (w) ` with a parenthesis-free width: the first name starts after it. */
  lemma HeadWidth(w: seq<char>, s: seq<char>)
    requires |s| > 0 && IsIdentifierCharacter(s[0])
    requires IsPlainText(w) && forall i :: 0 <= i < |w| ==> w[i] != '(' && w[i] != ')'
    ensures DeclarationHead([' ', '('] + w + [')', ' '] + s) == Ok(Read(s[0], s[1..]))
  {
    IdentifierIsPlain(s[0]);
    WidthText(w, s);
    NextPlain(' ', ['('] + (w + [')', ' '] + s));
    NextPlain('(', w + [')', ' '] + s);
    ParenSkipped(w, ' ', s);
    BlankBeforeName(s);
  }

  /** A declaration head ` #(w) ` with a parenthesis-free parameter list: the first name starts after it. */
  lemma HeadParameters(w: seq<char>, s: seq<char>)
    requires |s| > 0 && IsIdentifierCharacter(s[0])
    requires IsPlainText(w) && forall i :: 0 <= i < |w| ==> w[i] != '(' && w[i] != ')'
    ensures DeclarationHead([' ', '#', '('] + w + [')', ' '] + s) == Ok(Read(s[0], s[1..]))
  {
    IdentifierIsPlain(s[0]);
    WidthText(w, s);
    NextPlain(' ', ['#'] + (['('] + (w + [')', ' '] + s)));
    NextPlain('#', ['('] + (w + [')', ' '] + s));
    NextPlain('(', w + [')', ' '] + s);
    ParenSkipped(w, ' ', s);
    BlankBeforeName(s);
  }

  /** The text of a declaration with a head `h`, split after the blank that opens it. */
  lemma HeadText(h: seq<char>, list: seq<char>, q: seq<char>)
    ensures [' '] + (h + list + [';'] + q) == [' '] + h + (list + [';'] + q)
  {
  }

  /** The declaration ` (w) a, b, c;` tags its names in order after skipping the width. */
  lemma WidthDeclaration(kind: Kind, w: seq<char>, names: seq<string>, q: seq<char>)
    requires IsPlainText(w) && forall i :: 0 <= i < |w| ==> w[i] != '(' && w[i] != ')'
    requires |names| > 0 && AllWords(names)
    ensures Declaration(kind, [' '] + (['('] + w + [')', ' '] + Joined(names) + [';'] + q)) == Emit(Tags(names, kind), Ok([';'] + q))
  {
    JoinedShape(names);
    var s := Joined(names) + [';'] + q;
    HeadWidth(w, s);
    HeadText(['('] + w + [')', ' '], Joined(names), q);
    assert [' '] + (['('] + w + [')', ' ']) == [' ', '('] + w + [')', ' '];
    DeclarationAfterHead(kind, [' ', '('] + w + [')', ' '] + s, s[0], s[1..]);
    NameListJoined(kind, names, q);
  }

  /** The declaration ` #(w) a, b, c;` tags its names in order after skipping the parameters. */
  lemma ParameterisedDeclaration(kind: Kind, w: seq<char>, names: seq<string>, q: seq<char>)
    requires IsPlainText(w) && forall i :: 0 <= i < |w| ==> w[i] != '(' && w[i] != ')'
    requires |names| > 0 && AllWords(names)
    ensures Declaration(kind, [' '] + (['#', '('] + w + [')', ' '] + Joined(names) + [';'] + q)) == Emit(Tags(names, kind), Ok([';'] + q))
  {
    JoinedShape(names);
    var s := Joined(names) + [';'] + q;
    HeadParameters(w, s);
    HeadText(['#', '('] + w + [')', ' '], Joined(names), q);
    assert [' '] + (['#', '('] + w + [')', ' ']) == [' ', '#', '('] + w + [')', ' '];
    DeclarationAfterHead(kind, [' ', '#', '('] + w + [')', ' '] + s, s[0], s[1..]);
    NameListJoined(kind, names, q);
  }

  /** `kw (w) a, b, c;` at a statement start: one tag per name, after the width. */
  lemma DeclaredWideNames(kw: string, w: seq<char>, names: seq<string>, q: seq<char>)
    requires Lookup(kw) != Undefined && |kw| > 0 && kw[0] != '`'
    requires IsPlainText(w) && forall i :: 0 <= i < |w| ==> w[i] != '(' && w[i] != ')'
    requires |names| > 0 && AllWords(names)
    ensures Scan(true, kw + [' '] + (['('] + w + [')', ' ']) + Joined(names) + [';'] + q) == Tags(names, Lookup(kw)) + Scan(true, q)
  {
    DeclarationText(kw, ['('] + w + [')', ' '], Joined(names), q);
    ScanAtDeclaration(kw, ' ', ['('] + w + [')', ' '] + Joined(names) + [';'] + q);
    WidthDeclaration(Lookup(kw), w, names, q);
    ResumeAtSemicolon(Tags(names, Lookup(kw)), q);
  }

  /** `kw #(w) a, b, c;` at a statement start: one tag per name, after the parameter list. */
  lemma DeclaredParameterisedNames(kw: string, w: seq<char>, names: seq<string>, q: seq<char>)
    requires Lookup(kw) != Undefined && |kw| > 0 && kw[0] != '`'
    requires IsPlainText(w) && forall i :: 0 <= i < |w| ==> w[i] != '(' && w[i] != ')'
    requires |names| > 0 && AllWords(names)
    ensures Scan(true, kw + [' '] + (['#', '('] + w + [')', ' ']) + Joined(names) + [';'] + q) == Tags(names, Lookup(kw)) + Scan(true, q)
  {
    DeclarationText(kw, ['#', '('] + w + [')', ' '], Joined(names), q);
    ScanAtDeclaration(kw, ' ', ['#', '('] + w + [')', ' '] + Joined(names) + [';'] + q);
    ParameterisedDeclaration(Lookup(kw), w, names, q);
    ResumeAtSemicolon(Tags(names, Lookup(kw)), q);
  }

  /** The text after a name ` [r], ` split the way the separator reads it. */
  lemma DimensionText(r: seq<char>, s: seq<char>)
    ensures [' ', '['] + r + [']', ',', ' '] + s == [' '] + (['['] + (r + [']', ','] + ([' '] + s)))
  {
  }

  /** After a name, a bracket-free dimension ` [r]` is skipped, and the ", " after it goes on to the next name. */
  lemma SeparatorAfterDimension(r: seq<char>, s: seq<char>)
    requires IsPlainText(r) && forall i :: 0 <= i < |r| ==> r[i] != '[' && r[i] != ']'
    requires |s| > 0 && IsIdentifierCharacter(s[0])
    ensures NameSeparator([' ', '['] + r + [']', ',', ' '] + s) == Ok(Separator(true, s[0], s[1..]))
  {
    DimensionText(r, s);
    NextPlain(' ', ['['] + (r + [']', ','] + ([' '] + s)));
    NextPlain('[', r + [']', ','] + ([' '] + s));
    RangeSkipped(r, ',', [' '] + s);
    NextPlain(' ', s);
    IdentifierIsPlain(s[0]);
    assert s == [s[0]] + s[1..];
    NextPlain(s[0], s[1..]);
  }

  /** The text ` a [r], b;` split after the first name's first character. */
  lemma DimensionedText(a: string, r: seq<char>, b: string, q: seq<char>)
    requires |a| > 0
    ensures a + [' ', '['] + r + [']', ',', ' '] + b + [';'] + q ==
      [a[0]] + (a[1..] + [' '] + (['['] + r + [']', ',', ' '] + (b + [';'] + q)))
    ensures [' '] + (['['] + r + [']', ',', ' '] + (b + [';'] + q)) == [' ', '['] + r + [']', ',', ' '] + (b + [';'] + q)
    ensures Joined([b]) + [';'] + q == b + [';'] + q
  {
  }

  /** The declaration ` a [r], b;` tags `a` and `b`, skipping the dimension of `a`, and leaves the ';' pending. */
  lemma DimensionedDeclaration(kind: Kind, a: string, r: seq<char>, b: string, q: seq<char>)
    requires IsWord(a) && IsWord(b)
    requires IsPlainText(r) && forall i :: 0 <= i < |r| ==> r[i] != '[' && r[i] != ']'
    ensures Declaration(kind, [' '] + (a + [' ', '['] + r + [']', ',', ' '] + b + [';'] + q)) ==
      Emit([Tag(a, kind), Tag(b, kind)], Ok([';'] + q))
  {
    DimensionedText(a, r, b, q);
    var after := ['['] + r + [']', ',', ' '] + (b + [';'] + q);
    var p := a[1..] + [' '] + after;
    HeadBlank([a[0]] + p);
    DeclarationAfterHead(kind, [' '] + (a + [' ', '['] + r + [']', ',', ' '] + b + [';'] + q), a[0], p);
    ReadWord(a, ' ', after);
    SeparatorAfterDimension(r, b + [';'] + q);
    assert AllWords([b]);
    NameListJoined(kind, [b], q);
    assert Tags([b], kind) == [Tag(b, kind)];
    NameListMore(kind, a[0], p, a, [' '] + after, Separator(true, b[0], (b + [';'] + q)[1..]));
    assert [Tag(a, kind)] + [Tag(b, kind)] == [Tag(a, kind), Tag(b, kind)];
  }

  /** `kw a [r], b;` at a statement start tags `a` and `b`: a per-name dimension is skipped. */
  lemma DimensionedNames(kw: string, a: string, r: seq<char>, b: string, q: seq<char>)
    requires Lookup(kw) != Undefined && |kw| > 0 && kw[0] != '`'
    requires IsWord(a) && IsWord(b)
    requires IsPlainText(r) && forall i :: 0 <= i < |r| ==> r[i] != '[' && r[i] != ']'
    ensures Scan(true, kw + [' '] + (a + [' ', '['] + r + [']', ',', ' '] + b + [';'] + q)) ==
      [Tag(a, Lookup(kw)), Tag(b, Lookup(kw))] + Scan(true, q)
  {
    ScanAtDeclaration(kw, ' ', a + [' ', '['] + r + [']', ',', ' '] + b + [';'] + q);
    DimensionedDeclaration(Lookup(kw), a, r, b, q);
    ResumeAtSemicolon([Tag(a, Lookup(kw)), Tag(b, Lookup(kw))], q);
  }

  /** The value loop of tagNameList reads through the first ',' or ';'. */
  lemma {:induction false} SkipValuePlain(u: seq<char>, x: char, t: seq<char>)
    requires IsPlainText(u) && forall i :: 0 <= i < |u| ==> u[i] != ',' && u[i] != ';'
    requires x == ',' || x == ';'
    ensures SkipValue(u + [x] + t) == Ok(Read(x, t))
    decreases |u|
  {
    if u == [] {
      NextPlain(x, t);
    } else {
      assert u + [x] + t == [u[0]] + (u[1..] + [x] + t);
      NextPlain(u[0], u[1..] + [x] + t);
      SkipValuePlain(u[1..], x, t);
    }
  }

  /** The text after a name ` = v` and its terminator, split the way `AfterName` reads it. */
  lemma ValueText(v: seq<char>, x: char, t: seq<char>)
    requires |v| > 0
    ensures [' ', '=', ' '] + v + [x] + t == [' '] + (['='] + ([' '] + ([v[0]] + (v[1..] + [x] + t))))
    ensures [' ', '=', ' '] + v + [',', ' '] + t == [' ', '=', ' '] + v + [','] + ([' '] + t)
  {
  }

  /**
   * After a name, an initializer ` = v` is skipped up to the ',' or ';' that
   * ends it. The first character of the value is read without being tested,
   * as the scanner does.
   */
  lemma AfterValue(v: seq<char>, x: char, t: seq<char>)
    requires |v| > 0 && IsPlainText(v) && !IsSpace(v[0]) && v[0] != '{'
    requires forall i :: 0 <= i < |v| ==> v[i] != ',' && v[i] != ';'
    requires x == ',' || x == ';'
    ensures AfterName([' ', '=', ' '] + v + [x] + t) == Ok(Read(x, t))
  {
    ValueText(v, x, t);
    var u := v[1..];
    assert IsPlainText(u) && forall i :: 0 <= i < |u| ==> u[i] != ',' && u[i] != ';' by {
      forall i | 0 <= i < |u| ensures IsPlain(u[i]) && u[i] != ',' && u[i] != ';' {
        assert u[i] == v[i + 1];
      }
    }
    NextPlain(' ', ['='] + ([' '] + ([v[0]] + (u + [x] + t))));
    NextPlain('=', [' '] + ([v[0]] + (u + [x] + t)));
    NextPlain(' ', [v[0]] + (u + [x] + t));
    NextPlain(v[0], u + [x] + t);
    SkipValuePlain(u, x, t);
  }

  /** An initializer ended by ',' is followed by the next name, after the blank. */
  lemma SeparatorAfterValue(v: seq<char>, s: seq<char>)
    requires |v| > 0 && IsPlainText(v) && !IsSpace(v[0]) && v[0] != '{'
    requires forall i :: 0 <= i < |v| ==> v[i] != ',' && v[i] != ';'
    requires |s| > 0 && IsIdentifierCharacter(s[0])
    ensures NameSeparator([' ', '=', ' '] + v + [',', ' '] + s) == Ok(Separator(true, s[0], s[1..]))
  {
    ValueText(v, ',', s);
    AfterValue(v, ',', [' '] + s);
    NextPlain(' ', s);
    IdentifierIsPlain(s[0]);
    assert s == [s[0]] + s[1..];
    NextPlain(s[0], s[1..]);
  }

  /** The text ` a = v, b;` split after the first name's first character. */
  lemma InitializedText(a: string, v: seq<char>, b: string, q: seq<char>)
    requires |a| > 0
    ensures a + [' ', '=', ' '] + v + [',', ' '] + b + [';'] + q ==
      [a[0]] + (a[1..] + [' '] + (['=', ' '] + v + [',', ' '] + (b + [';'] + q)))
    ensures [' '] + (['=', ' '] + v + [',', ' '] + (b + [';'] + q)) == [' ', '=', ' '] + v + [',', ' '] + (b + [';'] + q)
    ensures Joined([b]) + [';'] + q == b + [';'] + q
  {
  }

  /** The declaration ` a = v, b;` tags `a` and `b`, skipping the initializer, and leaves the ';' pending. */
  lemma InitializedDeclaration(kind: Kind, a: string, v: seq<char>, b: string, q: seq<char>)
    requires IsWord(a) && IsWord(b)
    requires |v| > 0 && IsPlainText(v) && !IsSpace(v[0]) && v[0] != '{'
    requires forall i :: 0 <= i < |v| ==> v[i] != ',' && v[i] != ';'
    ensures Declaration(kind, [' '] + (a + [' ', '=', ' '] + v + [',', ' '] + b + [';'] + q)) ==
      Emit([Tag(a, kind), Tag(b, kind)], Ok([';'] + q))
  {
    InitializedText(a, v, b, q);
    var after := ['=', ' '] + v + [',', ' '] + (b + [';'] + q);
    var p := a[1..] + [' '] + after;
    HeadBlank([a[0]] + p);
    DeclarationAfterHead(kind, [' '] + (a + [' ', '=', ' '] + v + [',', ' '] + b + [';'] + q), a[0], p);
    ReadWord(a, ' ', after);
    SeparatorAfterValue(v, b + [';'] + q);
    assert AllWords([b]);
    NameListJoined(kind, [b], q);
    assert Tags([b], kind) == [Tag(b, kind)];
    NameListMore(kind, a[0], p, a, [' '] + after, Separator(true, b[0], (b + [';'] + q)[1..]));
    assert [Tag(a, kind)] + [Tag(b, kind)] == [Tag(a, kind), Tag(b, kind)];
  }

  /** `kw a = v, b;` at a statement start tags `a` and `b`: an initializer is skipped. */
  lemma InitializedNames(kw: string, a: string, v: seq<char>, b: string, q: seq<char>)
    requires Lookup(kw) != Undefined && |kw| > 0 && kw[0] != '`'
    requires IsWord(a) && IsWord(b)
    requires |v| > 0 && IsPlainText(v) && !IsSpace(v[0]) && v[0] != '{'
    requires forall i :: 0 <= i < |v| ==> v[i] != ',' && v[i] != ';'
    ensures Scan(true, kw + [' '] + (a + [' ', '=', ' '] + v + [',', ' '] + b + [';'] + q)) ==
      [Tag(a, Lookup(kw)), Tag(b, Lookup(kw))] + Scan(true, q)
  {
    ScanAtDeclaration(kw, ' ', a + [' ', '=', ' '] + v + [',', ' '] + b + [';'] + q);
    InitializedDeclaration(Lookup(kw), a, v, b, q);
    ResumeAtSemicolon([Tag(a, Lookup(kw)), Tag(b, Lookup(kw))], q);
  }

  /** An initializer ended by ';' ends the list there. */
  lemma SeparatorAfterFinalValue(v: seq<char>, q: seq<char>)
    requires |v| > 0 && IsPlainText(v) && !IsSpace(v[0]) && v[0] != '{'
    requires forall i :: 0 <= i < |v| ==> v[i] != ',' && v[i] != ';'
    ensures NameSeparator([' ', '=', ' '] + v + [';'] + q) == Ok(Separator(false, ';', q))
  {
    AfterValue(v, ';', q);
  }

  /** The text ` a = v;` split after the name's first character. */
  lemma FinalValueDeclarationText(a: string, v: seq<char>, q: seq<char>)
    requires |a| > 0
    ensures a + [' ', '=', ' '] + v + [';'] + q == [a[0]] + (a[1..] + [' '] + (['=', ' '] + v + [';'] + q))
    ensures [' '] + (['=', ' '] + v + [';'] + q) == [' ', '=', ' '] + v + [';'] + q
  {
  }

  /** The declaration ` a = v;` tags `a`, skips the initializer and leaves the ';' pending. */
  lemma InitializedDeclarationLast(kind: Kind, a: string, v: seq<char>, q: seq<char>)
    requires IsWord(a)
    requires |v| > 0 && IsPlainText(v) && !IsSpace(v[0]) && v[0] != '{'
    requires forall i :: 0 <= i < |v| ==> v[i] != ',' && v[i] != ';'
    ensures Declaration(kind, [' '] + (a + [' ', '=', ' '] + v + [';'] + q)) == Emit([Tag(a, kind)], Ok([';'] + q))
  {
    FinalValueDeclarationText(a, v, q);
    var after := ['=', ' '] + v + [';'] + q;
    var p := a[1..] + [' '] + after;
    HeadBlank([a[0]] + p);
    DeclarationAfterHead(kind, [' '] + (a + [' ', '=', ' '] + v + [';'] + q), a[0], p);
    ReadWord(a, ' ', after);
    SeparatorAfterFinalValue(v, q);
    NameListLast(kind, a[0], p, a, [' '] + after, Separator(false, ';', q));
  }

  /** `kw a = v;` at a statement start tags `a` alone: the value is not read as a name. */
  lemma InitializedName(kw: string, a: string, v: seq<char>, q: seq<char>)
    requires Lookup(kw) != Undefined && |kw| > 0 && kw[0] != '`'
    requires IsWord(a)
    requires |v| > 0 && IsPlainText(v) && !IsSpace(v[0]) && v[0] != '{'
    requires forall i :: 0 <= i < |v| ==> v[i] != ',' && v[i] != ';'
    ensures Scan(true, kw + [' '] + (a + [' ', '=', ' '] + v + [';'] + q)) == [Tag(a, Lookup(kw))] + Scan(true, q)
  {
    ScanAtDeclaration(kw, ' ', a + [' ', '=', ' '] + v + [';'] + q);
    InitializedDeclarationLast(Lookup(kw), a, v, q);
    ResumeAtSemicolon([Tag(a, Lookup(kw))], q);
  }

  /** The text of the `parameter` example, split as `InitializedName` reads it. */
  lemma ParameterText(q: seq<char>)
    ensures "parameter" + [' '] + ("WIDTH" + [' ', '=', ' '] + "8" + [';'] + q) == "parameter WIDTH = 8;" + q
    ensures IsWord("WIDTH") && IsPlainText("8")
  {
  }

  /** `parameter WIDTH = 8;` declares the one constant `WIDTH`. */
  lemma ParameterExample(q: seq<char>)
    ensures Scan(true, "parameter WIDTH = 8;" + q) == [Tag("WIDTH", Constant)] + Scan(true, q)
  {
    LookupParameter();
    ParameterText(q);
    InitializedName("parameter", "WIDTH", "8", q);
  }

  /** The text of the `wire` example, split as `DeclaredNames` reads it. */
  lemma WireText(q: seq<char>)
    ensures AllWords(["a", "b", "c"])
    ensures "wire" + [' '] + Joined(["a", "b", "c"]) + [';'] + q == "wire a, b, c;" + q
    ensures Tags(["a", "b", "c"], Net) == [Tag("a", Net), Tag("b", Net), Tag("c", Net)]
  {
    assert Joined(["a", "b", "c"]) == "a, b, c";
  }

  /** `wire a, b, c;` declares the nets `a`, `b` and `c`. */
  lemma WireExample(q: seq<char>)
    ensures Scan(true, "wire a, b, c;" + q) == [Tag("a", Net), Tag("b", Net), Tag("c", Net)] + Scan(true, q)
  {
    LookupWire();
    WireText(q);
    DeclaredNames("wire", ["a", "b", "c"], q);
  }

  /** The text of the `reg` example, split as `DeclaredRangedNames` reads it. */
  lemma RegText(q: seq<char>)
    ensures IsPlainText("3:0") && forall i :: 0 <= i < |"3:0"| ==> "3:0"[i] != '[' && "3:0"[i] != ']'
    ensures AllWords(["net_name"])
    ensures "reg" + [' '] + (['['] + "3:0" + [']', ' ']) + Joined(["net_name"]) + [';'] + q == "reg [3:0] net_name;" + q
    ensures Tags(["net_name"], Register) == [Tag("net_name", Register)]
  {
  }

  /** `reg [3:0] net_name;` declares the one register `net_name`. */
  lemma RegExample(q: seq<char>)
    ensures Scan(true, "reg [3:0] net_name;" + q) == [Tag("net_name", Register)] + Scan(true, q)
  {
    LookupReg();
    RegText(q);
    DeclaredRangedNames("reg", "3:0", ["net_name"], q);
  }

  /** The range of the `inout` example holds no bracket and no comment or string delimiter. */
  lemma InoutRange()
    ensures IsPlainText("(`DBUSWIDTH-1):0")
    ensures forall i :: 0 <= i < |"(`DBUSWIDTH-1):0"| ==> "(`DBUSWIDTH-1):0"[i] != '[' && "(`DBUSWIDTH-1):0"[i] != ']'
  {
  }

  /** The text of the `inout` example, split as `DeclaredRangedNames` reads it. */
  lemma InoutText(q: seq<char>)
    ensures AllWords(["databus"])
    ensures "inout" + [' '] + (['['] + "(`DBUSWIDTH-1):0" + [']', ' ']) + Joined(["databus"]) + [';'] + q ==
      "inout [(`DBUSWIDTH-1):0] databus;" + q
    ensures Tags(["databus"], Port) == [Tag("databus", Port)]
  {
    assert "inout" + [' '] + (['['] + "(`DBUSWIDTH-1):0" + [']', ' ']) + "databus" + [';'] == "inout [(`DBUSWIDTH-1):0] databus;";
  }

  /** `inout [(`DBUSWIDTH-1):0] databus;` declares the one port `databus`; the parenthesis inside the range is skipped with it. */
  lemma InoutExample(q: seq<char>)
    ensures Scan(true, "inout [(`DBUSWIDTH-1):0] databus;" + q) == [Tag("databus", Port)] + Scan(true, q)
  {
    LookupInout();
    InoutRange();
    InoutText(q);
    DeclaredRangedNames("inout", "(`DBUSWIDTH-1):0", ["databus"], q);
  }

  /** The text of the `wire` array example, split as `DimensionedNames` reads it. */
  lemma WireArrayText(q: seq<char>)
    ensures IsPlainText("0:3") && forall i :: 0 <= i < |"0:3"| ==> "0:3"[i] != '[' && "0:3"[i] != ']'
    ensures IsWord("a") && IsWord("b")
    ensures "wire" + [' '] + ("a" + [' ', '['] + "0:3" + [']', ',', ' '] + "b" + [';'] + q) == "wire a [0:3], b;" + q
  {
  }

  /** `wire a [0:3], b;` declares the nets `a` and `b`: the dimension of `a` is skipped. */
  lemma WireArrayExample(q: seq<char>)
    ensures Scan(true, "wire a [0:3], b;" + q) == [Tag("a", Net), Tag("b", Net)] + Scan(true, q)
  {
    LookupWire();
    WireArrayText(q);
    DimensionedNames("wire", "a", "0:3", "b", q);
  }

  // ---------------------------------------------------------------------------
  // Directives
  // ---------------------------------------------------------------------------

  /** The rest of a `` `define `` line, plain and without a newline, is consumed through the newline. */
  lemma {:induction false} RestOfLinePlain(s: seq<char>, q: seq<char>)
    requires IsPlainText(s) && forall i :: 0 <= i < |s| ==> s[i] != '\n'
    ensures RestOfLine(s + ['\n'] + q) == Ok(q)
    decreases |s|
  {
    if s == [] {
      NextPlain('\n', q);
    } else {
      assert s + ['\n'] + q == [s[0]] + (s[1..] + ['\n'] + q);
      NextPlain(s[0], s[1..] + ['\n'] + q);
      RestOfLinePlain(s[1..], q);
    }
  }

  /** findTag hands the `` `define `` directive to the directive branch. */
  lemma FindTagDefine(p: seq<char>)
    ensures FindTag("`define", p) == Directive(Constant, p)
  {
    LookupDefine();
  }

  /** The directive ` NAME value` with a plain value tags NAME and leaves the newline pending. */
  lemma DirectiveLine(kind: Kind, n: string, s: seq<char>, q: seq<char>)
    requires IsWord(n)
    requires IsPlainText(s) && forall i :: 0 <= i < |s| ==> s[i] != '\n'
    ensures Directive(kind, [' '] + (n + [' '] + s + ['\n'] + q)) == Emit([Tag(n, kind)], Ok(['\n'] + q))
  {
    var line := [' '] + s;
    assert IsPlainText(line) && forall i :: 0 <= i < |line| ==> line[i] != '\n' by {
      forall i | 0 <= i < |line| ensures IsPlain(line[i]) && line[i] != '\n' {
        if i > 0 {
          assert line[i] == s[i - 1];
        }
      }
    }
    IdentifierIsPlain(n[0]);
    assert n + [' '] + s + ['\n'] + q == [n[0]] + (n[1..] + [' '] + (s + ['\n'] + q));
    NextPlain(' ', [n[0]] + (n[1..] + [' '] + (s + ['\n'] + q)));
    ReadWord(n, ' ', s + ['\n'] + q);
    assert [' '] + (s + ['\n'] + q) == line + ['\n'] + q;
    RestOfLinePlain(line, q);
  }

  /** A newline left pending by a directive starts the next statement. */
  lemma ResumeAtNewline(tags: seq<Tag>, q: seq<char>)
    ensures Resume(Emit(tags, Ok(['\n'] + q))) == tags + Scan(true, q)
  {
    StatementBoundaries(false, q);
  }

  /** The text of a `` `define `` line, split after the blank that follows the directive. */
  lemma DefineText(n: string, s: seq<char>, q: seq<char>)
    ensures "`define " + n + [' '] + s + ['\n'] + q == "`define" + [' '] + (n + [' '] + s + ['\n'] + q)
    ensures IsWord("`define")
  {
  }

  /**
   * `` `define NAME value `` emits exactly one constant tag, for NAME, and
   * consumes the rest of its line; the newline then starts the next statement.
   */
  lemma DefineLine(n: string, s: seq<char>, q: seq<char>)
    requires IsWord(n)
    requires IsPlainText(s) && forall i :: 0 <= i < |s| ==> s[i] != '\n'
    ensures Scan(true, "`define " + n + [' '] + s + ['\n'] + q) == [Tag(n, Constant)] + Scan(true, q)
  {
    DefineText(n, s, q);
    ScanAtWord("`define", ' ', n + [' '] + s + ['\n'] + q);
    FindTagDefine([' '] + (n + [' '] + s + ['\n'] + q));
    DirectiveLine(Constant, n, s, q);
    ResumeAtNewline([Tag(n, Constant)], q);
  }

  /** The text of the `` `define `` example, split as `DefineLine` reads it. */
  lemma DefineExampleText(q: seq<char>)
    ensures "`define " + "FOO" + [' '] + "1" + ['\n'] + q == "`define FOO 1\n" + q
    ensures IsWord("FOO") && IsPlainText("1")
  {
  }

  /** `` `define FOO 1 `` declares the one constant `FOO`, and the next line starts a statement. */
  lemma DefineExample(q: seq<char>)
    ensures Scan(true, "`define FOO 1\n" + q) == [Tag("FOO", Constant)] + Scan(true, q)
  {
    DefineExampleText(q);
    DefineLine("FOO", "1", q);
  }

  // ---------------------------------------------------------------------------
  // Quirks kept from the scanner
  // ---------------------------------------------------------------------------

  /** A declaration head that is a lone `;`: it is read as the character after the head. */
  lemma HeadSemicolon(q: seq<char>)
    ensures DeclarationHead([';'] + q) == Ok(Read(';', q))
  {
    NextPlain(';', q);
  }

  /**
   * After a keyword, a character that starts no name is consumed and
   * dropped: the ';' of `reg;` is lost, so what follows is not at a
   * statement start.
   */
  lemma DroppedTerminator(kw: string, q: seq<char>)
    requires Lookup(kw) != Undefined && |kw| > 0 && kw[0] != '`'
    ensures Scan(true, kw + [';'] + q) == Scan(false, q)
  {
    ScanAtDeclaration(kw, ';', q);
    HeadSemicolon(q);
  }

  /** One step of tagNameList when another name follows the separator. */
  lemma NameListMore(kind: Kind, c: char, p: seq<char>, w: string, q: seq<char>, s: Separator)
    requires IsIdentifierCharacter(c) && ReadIdentifier(c, p) == Ok(Ident(true, w, q))
    requires NameSeparator(q) == Ok(s) && s.more
    ensures NameList(kind, c, p) ==
      Emit([Tag(w, kind)] + NameList(kind, s.c, s.rest).tags, NameList(kind, s.c, s.rest).rest)
  {
  }

  /** One step of tagNameList when the separator ends the list. */
  lemma NameListLast(kind: Kind, c: char, p: seq<char>, w: string, q: seq<char>, s: Separator)
    requires IsIdentifierCharacter(c) && ReadIdentifier(c, p) == Ok(Ident(true, w, q))
    requires NameSeparator(q) == Ok(s) && !s.more
    ensures NameList(kind, c, p) == Emit([Tag(w, kind)], Ok(Unget(s.c, s.rest)))
  {
  }

  /** A word that runs to the end of input is never finished. */
  lemma {:induction false} RunToEnd(w: string)
    requires IsWord(w)
    ensures RunFrom(w[0], w[1..]) == Eof
    decreases |w|
  {
    if |w| > 1 {
      var w' := w[1..];
      assert IsWord(w');
      IdentifierIsPlain(w'[0]);
      assert w[1..] == [w'[0]] + w'[1..];
      NextPlain(w'[0], w'[1..]);
      RunToEnd(w');
    }
  }

  /** A name that runs to the end of input is lost with the input. */
  lemma NameListAtEnd(kind: Kind, w: string)
    requires IsWord(w)
    ensures NameList(kind, w[0], w[1..]) == Emit([], Eof)
  {
    RunToEnd(w);
  }

  /** The text `` `define NAME `` at the very end, split after the directive's blank. */
  lemma DefineAtEndText(n: string)
    ensures "`define " + n == "`define" + [' '] + n
    ensures IsWord("`define")
  {
  }

  /** A directive whose name runs into the end of input emits no tag. */
  lemma DirectiveAtEnd(kind: Kind, n: string)
    requires IsWord(n)
    ensures Directive(kind, [' '] + n) == Emit([], Eof)
  {
    NextPlain(' ', n);
    BlankBeforeName(n);
    RunToEnd(n);
  }

  /** A `` `define `` whose name runs into the end of input emits nothing: the name is lost. */
  lemma DefineAtEnd(n: string)
    requires IsWord(n)
    ensures Scan(true, "`define " + n) == []
  {
    DefineAtEndText(n);
    ScanAtWord("`define", ' ', n);
    FindTagDefine([' '] + n);
    DirectiveAtEnd(Constant, n);
    assert Resume(Emit([], Eof)) == [];
  }

  /** The text ` a, b` split after the first name's first character. */
  lemma TruncatedText(a: string, b: string)
    requires |a| > 0
    ensures a + [',', ' '] + b == [a[0]] + (a[1..] + [','] + ([' '] + b))
    ensures [','] + ([' '] + b) == [',', ' '] + b
  {
  }

  /** The declaration ` a, b` cut off by the end of input tags `a` only. */
  lemma TruncatedDeclaration(kind: Kind, a: string, b: string)
    requires IsWord(a) && IsWord(b)
    ensures Declaration(kind, [' '] + (a + [',', ' '] + b)) == Emit([Tag(a, kind)], Eof)
  {
    TruncatedText(a, b);
    var p := a[1..] + [','] + ([' '] + b);
    HeadBlank([a[0]] + p);
    DeclarationAfterHead(kind, [' '] + (a + [',', ' '] + b), a[0], p);
    ReadWord(a, ',', [' '] + b);
    SeparatorAtComma(b);
    NameListAtEnd(kind, b);
    NameListMore(kind, a[0], p, a, [',', ' '] + b, Separator(true, b[0], b[1..]));
  }

  /**
   * End of input ends the scan and keeps the tags emitted before it; a name
   * still being read when the input ends is not tagged: `wire a, b` tags `a` only.
   */
  lemma TruncatedList(kw: string, a: string, b: string)
    requires Lookup(kw) != Undefined && |kw| > 0 && kw[0] != '`'
    requires IsWord(a) && IsWord(b)
    ensures Scan(true, kw + [' '] + (a + [',', ' '] + b)) == [Tag(a, Lookup(kw))]
  {
    ScanAtDeclaration(kw, ' ', a + [',', ' '] + b);
    TruncatedDeclaration(Lookup(kw), a, b);
  }

  /** The text ` n"s` split after the name's first character. */
  lemma OpenStringText(n: string, s: seq<char>)
    requires |n| > 0
    ensures n + ['"'] + s == [n[0]] + (n[1..] + (['"'] + s))
  {
  }

  /**
   * A name ended by an unterminated string is still tagged: the string reads
   * as '@', which ends the name and is pushed back, and only the read after
   * it reaches the end of input.
   */
  lemma NameBeforeOpenString(kind: Kind, n: string, s: seq<char>)
    requires IsWord(n) && forall i :: 0 <= i < |s| ==> s[i] != '"'
    ensures Declaration(kind, [' '] + (n + ['"'] + s)) == Emit([Tag(n, kind)], Ok(['@']))
  {
    OpenStringText(n, s);
    var p := n[1..] + (['"'] + s);
    HeadBlank([n[0]] + p);
    DeclarationAfterHead(kind, [' '] + (n + ['"'] + s), n[0], p);
    StringElided(s, []);
    RunFromWordThen(n, ['"'] + s, '@', []);
    assert ['@'] + [] == ['@'];
    NextPlain('@', []);
    NameListLast(kind, n[0], p, n, ['@'], Separator(false, '@', []));
  }

  /** The '@' an unterminated string leaves pending is read mid-statement, and then the input ends. */
  lemma ResumeAtLastCharacter(tags: seq<Tag>)
    ensures Resume(Emit(tags, Ok(['@']))) == tags
  {
    assert ['@'] + [] == ['@'];
    NextPlain('@', []);
  }

  /**
   * Unlike a name cut off by the end of input, a name ended by an
   * unterminated string is tagged before the scan stops: `kw n"s` tags `n`.
   */
  lemma OpenStringKeepsName(kw: string, n: string, s: seq<char>)
    requires Lookup(kw) != Undefined && |kw| > 0 && kw[0] != '`'
    requires IsWord(n) && forall i :: 0 <= i < |s| ==> s[i] != '"'
    ensures Scan(true, kw + [' '] + (n + ['"'] + s)) == [Tag(n, Lookup(kw))]
  {
    ScanAtDeclaration(kw, ' ', n + ['"'] + s);
    NameBeforeOpenString(Lookup(kw), n, s);
    ResumeAtLastCharacter([Tag(n, Lookup(kw))]);
  }

  /**
   * A directive whose line opens a string that is never closed: the string
   * runs to the end of input, so NAME is tagged and nothing after it is read.
   */
  lemma DirectiveOpenString(kind: Kind, n: string, s: seq<char>)
    requires IsWord(n) && forall i :: 0 <= i < |s| ==> s[i] != '"'
    ensures Directive(kind, [' '] + (n + [' ', '"'] + s)) == Emit([Tag(n, kind)], Eof)
  {
    var x := n + [' ', '"'] + s;
    var quote := ['"'] + s;
    assert x[1..] == n[1..] + [' '] + quote;
    NextPlain(' ', x);
    BlankBeforeName(x);
    ReadWord(n, ' ', quote);
    assert RestOfLine([' '] + quote) == Eof by {
      NextPlain(' ', quote);
      StringElided(s, []);
      assert RestOfLine(quote) == RestOfLine([]);
    }
  }

  /** The text of a `` `define `` line that opens a string, split after the directive's blank. */
  lemma OpenDefineText(n: string, s: seq<char>)
    ensures "`define " + n + [' ', '"'] + s == "`define" + [' '] + (n + [' ', '"'] + s)
    ensures IsWord("`define")
  {
  }

  /**
   * `` `define NAME "s `` with no closing quote tags NAME, and the later
   * lines of the text, whatever they hold, are never scanned.
   */
  lemma DefineOpenString(n: string, s: seq<char>)
    requires IsWord(n) && forall i :: 0 <= i < |s| ==> s[i] != '"'
    ensures Scan(true, "`define " + n + [' ', '"'] + s) == [Tag(n, Constant)]
  {
    OpenDefineText(n, s);
    var x := n + [' ', '"'] + s;
    ScanAtWord("`define", ' ', x);
    FindTagDefine([' '] + x);
    DirectiveOpenString(Constant, n, s);
    assert Resume(Emit([Tag(n, Constant)], Eof)) == [Tag(n, Constant)] + [];
  }

  /** The example `` `define FOO "`` followed by a line `wire a;`: only FOO is tagged. */
  lemma DefineOpenStringExample()
    ensures Scan(true, "`define FOO \"\nwire a;\n") == [Tag("FOO", Constant)]
  {
    var s := "\nwire a;\n";
    assert "`define FOO \"\nwire a;\n" == "`define " + "FOO" + [' ', '"'] + s;
    assert IsWord("FOO");
    DefineOpenString("FOO", s);
  }

  /** The text after a name ` = {v},`, split the way the separator reads it. */
  lemma BracedText(v: seq<char>, t: seq<char>)
    ensures [' ', '=', ' ', '{'] + v + ['}', ','] + t == [' '] + (['='] + ([' '] + (['{'] + (v + ['}', ','] + t))))
  {
  }

  /** After a name, a braced initializer is skipped and the '{' is kept: no further name follows. */
  lemma BracedSeparator(v: seq<char>, t: seq<char>)
    requires IsPlainText(v) && forall i :: 0 <= i < |v| ==> v[i] != '{' && v[i] != '}'
    ensures NameSeparator([' ', '=', ' ', '{'] + v + ['}', ','] + t) == Ok(Separator(false, '{', t))
  {
    BracedText(v, t);
    NextPlain(' ', ['='] + ([' '] + (['{'] + (v + ['}', ','] + t))));
    NextPlain('=', [' '] + (['{'] + (v + ['}', ','] + t)));
    NextPlain(' ', ['{'] + (v + ['}', ','] + t));
    NextPlain('{', v + ['}', ','] + t);
    NoBrackets('{', '}', 1, v);
    SkipsToMatch('{', '}', 1, v, ',', t);
  }

  /** The text ` a = {v},` split after the first name's first character. */
  lemma BracedDeclarationText(a: string, v: seq<char>, t: seq<char>)
    requires |a| > 0
    ensures a + ([' ', '=', ' ', '{'] + v + ['}', ','] + t) ==
      [a[0]] + (a[1..] + [' '] + ([' ', '=', ' ', '{'] + v + ['}', ','] + t)[1..])
  {
  }

  /** The declaration ` a = {v}, rest` tags `a` only and pushes the '{' back. */
  lemma BracedDeclaration(kind: Kind, a: string, v: seq<char>, t: seq<char>)
    requires IsWord(a)
    requires IsPlainText(v) && forall i :: 0 <= i < |v| ==> v[i] != '{' && v[i] != '}'
    ensures Declaration(kind, [' '] + (a + ([' ', '=', ' ', '{'] + v + ['}', ','] + t))) == Emit([Tag(a, kind)], Ok(['{'] + t))
  {
    var after := [' ', '=', ' ', '{'] + v + ['}', ','] + t;
    BracedDeclarationText(a, v, t);
    var p := a[1..] + [' '] + after[1..];
    HeadBlank([a[0]] + p);
    DeclarationAfterHead(kind, [' '] + (a + after), a[0], p);
    assert [' '] + after[1..] == after;
    ReadWord(a, ' ', after[1..]);
    BracedSeparator(v, t);
    NameListLast(kind, a[0], p, a, after, Separator(false, '{', t));
  }

  /**
   * A braced initializer ends the list: the character kept is the '{', so
   * no ',' is seen, the '{' is pushed back, and the rest of the statement is
   * read mid-statement, so a later name is not tagged: `wire a = {1}, b;`
   * tags `a` only.
   */
  lemma BracedInitializerEndsList(kw: string, a: string, v: seq<char>, t: seq<char>)
    requires Lookup(kw) != Undefined && |kw| > 0 && kw[0] != '`'
    requires IsWord(a)
    requires IsPlainText(v) && forall i :: 0 <= i < |v| ==> v[i] != '{' && v[i] != '}'
    ensures Scan(true, kw + [' '] + (a + ([' ', '=', ' ', '{'] + v + ['}', ','] + t))) == [Tag(a, Lookup(kw))] + Scan(false, t)
  {
    ScanAtDeclaration(kw, ' ', a + ([' ', '=', ' ', '{'] + v + ['}', ','] + t));
    BracedDeclaration(Lookup(kw), a, v, t);
    NextPlain('{', t);
  }
}
