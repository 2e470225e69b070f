/**
 * The scanner's routines as functions of the pending stream: what each one
 * reads, what it leaves pending and which tags it emits. The imperative
 * scanner in VerilogScanner is proved to behave exactly as these say.
 */
module VerilogGrammar {
  import opened VerilogKinds
  import opened VerilogStream

  /** The result of reading an identifier: whether one was read, its text, and the stream after it. */
  datatype Ident = Ident(found: bool, name: string, rest: seq<char>)

  /** A run of identifier characters, the logical character that ended it and the stream after that. */
  datatype Word = Word(run: string, term: char, rest: seq<char>)

  /** Tags emitted by a routine, and the pending stream it leaves (or `Eof` if the scan unwound). */
  datatype Emit = Emit(tags: seq<Tag>, rest: Step<seq<char>>)

  /** skipWhite: starting from `c`, read on while the character is white space. */
  function SkipWhite(c: char, p: seq<char>): (r: Step<Read>)
    decreases |p|
    ensures r.Ok? ==> !IsSpace(r.value.c) && |r.value.rest| <= |p|
    ensures !IsSpace(c) ==> r == Ok(Read(c, p))
  {
    if IsSpace(c) then
      var a :- Next(p);
      SkipWhite(a.c, a.rest)
    else Ok(Read(c, p))
  }

  /** The nesting level after reading `c` at `level`: the open bracket is tested first. */
  function Level(open: char, close: char, level: int, c: char): int {
    if c == open then level + 1 else if c == close then level - 1 else level
  }

  /**
   * skipPastMatch: with `level` brackets open, read until the matching close
   * brings the level to zero, then return the character after it.
   */
  function SkipPastMatch(open: char, close: char, level: nat, p: seq<char>): (r: Step<Read>)
    requires level >= 1
    decreases |p|
    ensures r.Ok? ==> |r.value.rest| + 2 <= |p|
  {
    var a :- Next(p);
    var next := Level(open, close, level, a.c);
    if next > 0 then SkipPastMatch(open, close, next, a.rest) else Next(a.rest)
  }

  /** The identifier characters read from `c` on, and the first character that is not one. */
  function RunFrom(c: char, p: seq<char>): (r: Step<Word>)
    decreases |p|
    ensures r.Ok? ==> !IsIdentifierCharacter(r.value.term) && |r.value.rest| <= |p|
    ensures r.Ok? ==> forall i :: 0 <= i < |r.value.run| ==> IsIdentifierCharacter(r.value.run[i])
    ensures r.Ok? && IsIdentifierCharacter(c) ==>
      |r.value.run| > 0 && r.value.run[0] == c && |r.value.rest| < |p|
    ensures !IsIdentifierCharacter(c) ==> r == Ok(Word([], c, p))
  {
    if IsIdentifierCharacter(c) then
      var a :- Next(p);
      var w :- RunFrom(a.c, a.rest);
      Ok(Word([c] + w.run, w.term, w.rest))
    else Ok(Word([], c, p))
  }

  /**
   * readIdentifier: from `c`, the maximal run of identifier characters, with
   * the character that ended it pushed back; when `c` starts no identifier the
   * name is empty and nothing is consumed.
   */
  function ReadIdentifier(c: char, p: seq<char>): (r: Step<Ident>)
    ensures r.Ok? ==> (r.value.found <==> IsIdentifierCharacter(c))
    ensures r.Ok? && r.value.found ==> IsWord(r.value.name) && r.value.name[0] == c && |r.value.rest| <= |p|
    ensures !IsIdentifierCharacter(c) ==> r == Ok(Ident(false, [], p))
  {
    if IsIdentifierCharacter(c) then
      var w :- RunFrom(c, p);
      Ok(Ident(|w.run| > 0, w.run, Unget(w.term, w.rest)))
    else Ok(Ident(false, [], p))
  }

  /** The initializer loop of tagNameList: read until a ',' or ';' and return it. */
  function SkipValue(p: seq<char>): (r: Step<Read>)
    decreases |p|
    ensures r.Ok? ==> (r.value.c == ',' || r.value.c == ';') && |r.value.rest| < |p|
  {
    var a :- Next(p);
    if a.c == ',' || a.c == ';' then Ok(a) else SkipValue(a.rest)
  }

  /**
   * What tagNameList reads after a name: white space, an optional `[..]`
   * dimension, white space, and an optional `= value`. A braced value is
   * skipped but the character kept is the '{' itself; any other value is
   * skipped up to a ',' or ';'. The result is the character that decides
   * whether another name follows.
   */
  function AfterName(p: seq<char>): (r: Step<Read>)
    ensures r.Ok? ==> |r.value.rest| < |p|
  {
    var a :- Next(p);
    var b :- SkipWhite(a.c, a.rest);
    var d :- if b.c == '[' then SkipPastMatch('[', ']', 1, b.rest) else Ok(b);
    var e :- SkipWhite(d.c, d.rest);
    if e.c != '=' then Ok(e)
    else
      var f :- Next(e.rest);
      var g :- SkipWhite(f.c, f.rest);
      if g.c == '{' then
        var h :- SkipPastMatch('{', '}', 1, g.rest);
        Ok(Read('{', h.rest))
      else SkipValue(g.rest)
  }

  /** Where a name list goes after one name: on to a next name at `c`, or stop at `c`. */
  datatype Separator = Separator(more: bool, c: char, rest: seq<char>)

  /**
   * What tagNameList reads after a name: `AfterName`, and when that ends at a
   * ',' the white space after the comma, up to what may start the next name.
   */
  function NameSeparator(p: seq<char>): (r: Step<Separator>)
    ensures r.Ok? ==> |r.value.rest| < |p|
    ensures r.Ok? && r.value.more ==> |r.value.rest| + 1 < |p|
  {
    var a :- AfterName(p);
    if a.c != ',' then Ok(Separator(false, a.c, a.rest))
    else
      var b :- Next(a.rest);
      var d :- SkipWhite(b.c, b.rest);
      Ok(Separator(true, d.c, d.rest))
  }

  /**
   * tagNameList: one tag of `kind` per comma-separated name, in order. The
   * character that ends the list is pushed back; a character that starts no
   * name ends the list without a tag.
   */
  function NameList(kind: Kind, c: char, p: seq<char>): (r: Emit)
    decreases |p|
    ensures r.rest.Ok? ==> |r.rest.value| <= |p| + 1
    ensures forall i :: 0 <= i < |r.tags| ==> r.tags[i].kind == kind && IsWord(r.tags[i].name)
    ensures !IsIdentifierCharacter(c) ==> r == Emit([], Ok(Unget(c, p)))
  {
    if !IsIdentifierCharacter(c) then Emit([], Ok(Unget(c, p)))
    else match ReadIdentifier(c, p)
      case Eof => Emit([], Eof)
      case Ok(id) =>
        var tag := Tag(id.name, kind);
        match NameSeparator(id.rest)
        case Eof => Emit([tag], Eof)
        case Ok(s) =>
          if s.more then
            var more := NameList(kind, s.c, s.rest);
            Emit([tag] + more.tags, more.rest)
          else Emit([tag], Ok(Unget(s.c, s.rest)))
  }

  /** The skipping loop of a `` `define `` line: read up to and including the next logical newline. */
  function RestOfLine(p: seq<char>): (r: Step<seq<char>>)
    decreases |p|
    ensures r.Ok? ==> |r.value| < |p|
  {
    var a :- Next(p);
    if a.c == '\n' then Ok(a.rest) else RestOfLine(a.rest)
  }

  /**
   * What findTag skips after a keyword other than a directive: white space,
   * an optional `(..)` width expression, an optional `[..]` range and an
   * optional `#(..)` parameter list, each followed by white space. The result
   * is the character that may start the first name.
   */
  function DeclarationHead(p: seq<char>): (r: Step<Read>)
    ensures r.Ok? ==> |r.value.rest| < |p|
  {
    var a :- Next(p);
    var b :- SkipWhite(a.c, a.rest);
    var d :- if b.c == '(' then SkipPastMatch('(', ')', 1, b.rest) else Ok(b);
    var e :- SkipWhite(d.c, d.rest);
    var f :- if e.c == '[' then SkipPastMatch('[', ']', 1, e.rest) else Ok(e);
    var g :- SkipWhite(f.c, f.rest);
    var h :- if g.c == '#' then
        var n :- Next(g.rest);
        if n.c == '(' then SkipPastMatch('(', ')', 1, n.rest) else Ok(n)
      else Ok(g);
    SkipWhite(h.c, h.rest)
  }

  /**
   * The `` `define `` branch of findTag: the directive's name, read after
   * white space, is tagged as `kind`; the rest of its line is consumed and the
   * newline that ends it is left pending.
   */
  function Directive(kind: Kind, p: seq<char>): (r: Emit)
    ensures r.rest.Ok? ==> |r.rest.value| <= |p|
    ensures forall i :: 0 <= i < |r.tags| ==> r.tags[i] == Tag(r.tags[i].name, kind)
    ensures |r.tags| <= 1
  {
    match Next(p)
    case Eof => Emit([], Eof)
    case Ok(a) =>
      match SkipWhite(a.c, a.rest)
      case Eof => Emit([], Eof)
      case Ok(b) =>
        match ReadIdentifier(b.c, b.rest)
        case Eof => Emit([], Eof)
        case Ok(id) =>
          var tag := Tag(id.name, kind);
          match RestOfLine(id.rest)
          case Eof => Emit([tag], Eof)
          case Ok(q) => Emit([tag], Ok(Unget('\n', q)))
  }

  /**
   * The keyword branch of findTag: after the declaration head, the names of
   * the declaration list are tagged as `kind`. A character there that starts
   * no name is consumed and dropped.
   */
  function Declaration(kind: Kind, p: seq<char>): (r: Emit)
    ensures r.rest.Ok? ==> |r.rest.value| <= |p|
    ensures forall i :: 0 <= i < |r.tags| ==> r.tags[i].kind == kind
  {
    match DeclarationHead(p)
    case Eof => Emit([], Eof)
    case Ok(h) =>
      if IsIdentifierCharacter(h.c) then NameList(kind, h.c, h.rest)
      else Emit([], Ok(h.rest))
  }

  /**
   * findTag: classify the identifier `name` that opened a statement. A
   * `` `define `` is a `Directive`, another keyword a `Declaration`; an
   * unlisted identifier emits nothing and consumes nothing.
   */
  function FindTag(name: string, p: seq<char>): (r: Emit)
    ensures r.rest.Ok? ==> |r.rest.value| <= |p|
    ensures forall i :: 0 <= i < |r.tags| ==> r.tags[i].kind == Lookup(name) != Undefined
    ensures Lookup(name) == Undefined ==> r == Emit([], Ok(p))
  {
    var kind := Lookup(name);
    if kind == Constant && |name| > 0 && name[0] == '`' then Directive(kind, p)
    else if kind != Undefined then Declaration(kind, p)
    else Emit([], Ok(p))
  }

  /**
   * findVerilogTags: the tags of the whole pending stream `p`. A ';' or a
   * newline starts a new statement, a space or a tab changes nothing, and any
   * other character ends the statement start; only a character read at a
   * statement start is looked at by `AtStatementStart`. End of input ends the
   * scan and keeps the tags emitted before it.
   */
  function Scan(newStatement: bool, p: seq<char>): (r: seq<Tag>)
    decreases |p|, 1
    ensures forall i :: 0 <= i < |r| ==> r[i].kind != Undefined
  {
    match Next(p)
    case Eof => []
    case Ok(a) =>
      if a.c == ';' || a.c == '\n' then Scan(true, a.rest)
      else if a.c == ' ' || a.c == '\t' then Scan(newStatement, a.rest)
      else if !newStatement then Scan(false, a.rest)
      else AtStatementStart(a.c, a.rest)
  }

  /**
   * The driver at a statement start, having read `c`: an identifier is read
   * and classified by `FindTag`; the scan goes on in the middle of the statement.
   */
  function AtStatementStart(c: char, p: seq<char>): (r: seq<Tag>)
    decreases |p| + 1, 0
    ensures forall i :: 0 <= i < |r| ==> r[i].kind != Undefined
  {
    match ReadIdentifier(c, p)
    case Eof => []
    case Ok(id) =>
      if !id.found then Scan(false, id.rest)
      else
        var e := FindTag(id.name, id.rest);
        e.tags + match e.rest
          case Eof => []
          case Ok(q) => Scan(false, q)
  }
}
