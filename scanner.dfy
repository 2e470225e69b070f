/**
 * The imperative scanner: one-slot pushback, a host reader that is a cursor
 * over the input with its own one-character pushback, the identifier buffer
 * and the emitted tags, as fields of one object. Each method is proved to do
 * exactly what the function of the same purpose in VerilogGrammar (or `Next`
 * in VerilogStream) says about the pending stream `Pending()`.
 */
module VerilogScanner {
  import opened VerilogKinds
  import opened VerilogStream
  import Spec = VerilogGrammar

  datatype Option<T> = None | Some(value: T)

  /** A method that returned `r` and left `after` pending did what `s` describes. */
  ghost predicate Gives(r: Step<char>, s: Step<Read>, after: seq<char>) {
    match s
    case Eof => r == Eof
    case Ok(a) => r == Ok(a.c) && after == a.rest
  }

  /** The tags `ts` emitted so far, followed by what the rest of a routine emits. */
  function Prepend(ts: seq<Tag>, e: Spec.Emit): Spec.Emit {
    Spec.Emit(ts + e.tags, e.rest)
  }

  /** The identifier characters `s` already buffered, followed by the rest of the run. */
  function PrefixRun(s: string, r: Step<Spec.Word>): Step<Spec.Word> {
    match r
    case Eof => Eof
    case Ok(w) => Ok(Spec.Word(s + w.run, w.term, w.rest))
  }

  lemma PrefixRunEmpty(r: Step<Spec.Word>)
    ensures PrefixRun([], r) == r
  {
    if r.Ok? {
      assert [] + r.value.run == r.value.run;
    }
  }

  /** One more identifier character moves from the pending run into the buffer. */
  lemma RunFromStep(s: string, c: char, p: seq<char>, c': char, p': seq<char>)
    requires IsIdentifierCharacter(c) && Next(p) == Ok(Read(c', p'))
    ensures PrefixRun(s, Spec.RunFrom(c, p)) == PrefixRun(s + [c], Spec.RunFrom(c', p'))
  {
    match Spec.RunFrom(c', p')
    case Eof =>
    case Ok(w) =>
      assert s + ([c] + w.run) == (s + [c]) + w.run;
  }

  /** One round of skipPastMatch: read a character and adjust the level, or stop at the end of input. */
  lemma SkipPastMatchStep(open: char, close: char, level: nat, p: seq<char>)
    requires level >= 1
    ensures Next(p) == Eof ==> Spec.SkipPastMatch(open, close, level, p) == Eof
    ensures Next(p).Ok? ==>
      var a := Next(p).value;
      var next := Spec.Level(open, close, level, a.c);
      Spec.SkipPastMatch(open, close, level, p) ==
        if next > 0 then Spec.SkipPastMatch(open, close, next, a.rest) else Next(a.rest)
  {
  }

  /** Concatenation of tag sequences is associative. */
  lemma TagsAssoc(s: seq<Tag>, t: seq<Tag>, u: seq<Tag>)
    ensures s + (t + u) == (s + t) + u
  {
  }

  lemma PrependAssoc(s: seq<Tag>, t: seq<Tag>, e: Spec.Emit)
    ensures Prepend(s, Prepend(t, e)) == Prepend(s + t, e)
  {
    assert s + (t + e.tags) == (s + t) + e.tags;
  }

  /** What a name list emits after one name's separator `r`, from the pending stream `p`. */
  ghost function Continue(kind: Kind, r: Step<Spec.Separator>, p: seq<char>): Spec.Emit {
    match r
    case Eof => Spec.Emit([], Eof)
    case Ok(s) => if s.more then Spec.NameList(kind, s.c, p) else Spec.Emit([], Ok(Unget(s.c, p)))
  }

  /** One round of tagNameList: the name's tag, then what follows its separator. */
  lemma NameListStep(kind: Kind, c: char, p: seq<char>, name: string, q: seq<char>)
    requires IsIdentifierCharacter(c) && Spec.ReadIdentifier(c, p) == Ok(Spec.Ident(true, name, q))
    ensures Spec.NameSeparator(q) == Eof ==>
      Spec.NameList(kind, c, p) == Prepend([Tag(name, kind)], Spec.Emit([], Eof))
    ensures Spec.NameSeparator(q).Ok? ==>
      var s := Spec.NameSeparator(q).value;
      Spec.NameList(kind, c, p) == Prepend([Tag(name, kind)],
        if s.more then Spec.NameList(kind, s.c, s.rest) else Spec.Emit([], Ok(Unget(s.c, s.rest))))
  {
    assert [Tag(name, kind)] + [] == [Tag(name, kind)];
  }

  class Scanner {
    /** The whole input, read by the host reader. */
    const input: seq<char>
    /** The host reader's cursor into `input`. */
    var pos: nat
    /** The host reader's own one-character pushback. */
    var rawBack: Option<char>
    /** The scanner's pushback slot; '\0' means empty. */
    var ungetc: char
    /** The identifier buffer. */
    var name: string
    /** The tags emitted so far, in order. */
    var tags: seq<Tag>

    ghost predicate Valid()
      reads this
    {
      pos <= |input|
    }

    /** What the host reader will deliver. */
    ghost function Rest(): seq<char>
      reads this
      requires Valid()
    {
      (if rawBack.Some? then [rawBack.value] else []) + input[pos..]
    }

    /** What the scanner will read: the pushback slot, then the host reader. */
    ghost function Pending(): seq<char>
      reads this
      requires Valid()
    {
      Unget(ungetc, Rest())
    }

    constructor (text: seq<char>)
      ensures Valid() && input == text && Pending() == text
      ensures ungetc == '\0' && name == [] && tags == []
    {
      input := text;
      pos := 0;
      rawBack := None;
      ungetc := '\0';
      name := [];
      tags := [];
    }

    /** getcFromInputFile: the pushed-back raw character if any, else the next input character. */
    method GetcRaw() returns (r: Step<char>)
      requires Valid()
      modifies this`pos, this`rawBack
      ensures Valid() && rawBack.None?
      ensures old(Rest()) == [] ==> r == Eof && Rest() == []
      ensures old(Rest()) != [] ==> r == Ok(old(Rest())[0]) && Rest() == old(Rest())[1..]
    {
      match rawBack
      case Some(c) =>
        rawBack := None;
        return Ok(c);
      case None =>
        if pos == |input| {
          return Eof;
        }
        r := Ok(input[pos]);
        pos := pos + 1;
    }

    /** ungetcToInputFile: push one raw character back to the host reader. */
    method UngetcRaw(c: char)
      requires Valid() && rawBack.None?
      modifies this`rawBack
      ensures Valid() && Rest() == [c] + old(Rest())
    {
      rawBack := Some(c);
    }

    /**
     * lcppSkipOverCComment, entered after "/" "*": consume through the first
     * "*" "/" and return the raw character after it, or end of input.
     */
    method SkipOverCComment() returns (r: Step<char>)
      requires Valid()
      modifies this`pos, this`rawBack
      ensures Valid()
      ensures match AfterComment(old(Rest()))
        case Eof => r == Eof
        case Ok(q) => if q == [] then r == Eof else r == Ok(q[0]) && Rest() == q[1..]
    {
      ghost var s := Rest();
      var c := GetcRaw();
      assert c.Ok? ==> s == [c.value] + Rest();
      while c.Ok?
        invariant Valid()
        invariant c.Ok? ==> AfterComment(s) == AfterComment([c.value] + Rest())
        invariant c.Eof? ==> AfterComment(s) == Eof
        decreases |Rest()|, if c.Ok? then 1 else 0
      {
        ghost var here := Rest();
        if c.value != '*' {
          c := GetcRaw();
          assert c.Ok? ==> here == [c.value] + Rest();
        } else {
          var next := GetcRaw();
          assert next.Ok? ==> here == [next.value] + Rest();
          if next == Ok('/') {
            assert AfterComment(s) == Ok(Rest());
            r := GetcRaw();
            return;
          }
          c := next;
        }
      }
      return Eof;
    }

    /** vUngetc: the slot must be empty; the character is read again next. */
    method VUngetc(c: char)
      requires Valid() && ungetc == '\0'
      modifies this`ungetc
      ensures Valid() && ungetc == c
      ensures Pending() == Unget(c, old(Pending()))
    {
      ungetc := c;
    }

    /** The loop of vGetc after "/" "/": read raw characters through the next newline. */
    method SkipLineComment() returns (r: Step<char>)
      requires Valid()
      modifies this`pos, this`rawBack
      ensures Valid()
      ensures match AfterLine(old(Rest()))
        case Eof => r == Eof
        case Ok(q) => r == Ok('\n') && Rest() == q
    {
      ghost var s := Rest();
      var c :- GetcRaw();
      while c != '\n'
        invariant Valid()
        invariant AfterLine(s) == if c == '\n' then Ok(Rest()) else AfterLine(Rest())
        decreases |Rest()|
      {
        c :- GetcRaw();
      }
      return Ok(c);
    }

    /** The loop of vGetc after a '"': read raw characters through the closing quote or to the end. */
    method SkipString()
      requires Valid()
      modifies this`pos, this`rawBack
      ensures Valid() && Rest() == AfterQuote(old(Rest()))
    {
      ghost var s := Rest();
      var c := GetcRaw();
      while c.Ok? && c.value != '"'
        invariant Valid()
        invariant AfterQuote(s) == if c.Ok? && c.value != '"' then AfterQuote(Rest()) else Rest()
        decreases |Rest()|, if c.Ok? then 1 else 0
      {
        c := GetcRaw();
      }
    }

    /**
     * vGetc: the pushed-back character if any, else the host's next one, with
     * comments and strings elided; end of input unwinds. The slot is left empty.
     */
    method VGetc() returns (r: Step<char>)
      requires Valid()
      modifies this`pos, this`rawBack, this`ungetc
      ensures Valid() && ungetc == '\0'
      ensures Gives(r, Next(old(Pending())), Pending())
    {
      ghost var p := Pending();
      var c: char;
      if ungetc == '\0' {
        c :- GetcRaw();
      } else {
        c := ungetc;
        ungetc := '\0';
      }
      assert p != [] && c == p[0] && Rest() == p[1..];
      if c == '/' {
        var c2 :- GetcRaw();
        assert |p| >= 2 && c2 == p[1] && Rest() == p[2..];
        if c2 == '/' {
          c :- SkipLineComment();
        } else if c2 == '*' {
          c :- SkipOverCComment();
        } else {
          UngetcRaw(c2);
        }
      } else if c == '"' {
        SkipString();
        c := '@';
      }
      return Ok(c);
    }

    /** skipWhite: read on from `c0` while the character is white space. */
    method SkipWhite(c0: char) returns (r: Step<char>)
      requires Valid()
      modifies this`pos, this`rawBack, this`ungetc
      ensures Valid()
      ensures Gives(r, Spec.SkipWhite(c0, old(Pending())), Pending())
      ensures IsSpace(c0) ==> ungetc == '\0'
      ensures !IsSpace(c0) ==> pos == old(pos) && rawBack == old(rawBack) && ungetc == old(ungetc)
    {
      var c := c0;
      while IsSpace(c)
        invariant Valid()
        invariant Spec.SkipWhite(c0, old(Pending())) == Spec.SkipWhite(c, Pending())
        invariant (c == c0 && pos == old(pos) && rawBack == old(rawBack) && ungetc == old(ungetc))
          || (IsSpace(c0) && ungetc == '\0')
        decreases |Pending()|
      {
        c :- VGetc();
      }
      return Ok(c);
    }

    /** skipPastMatch: one bracket is open; skip to its match and return the character after it. */
    method SkipPastMatch(open: char, close: char) returns (r: Step<char>)
      requires Valid()
      modifies this`pos, this`rawBack, this`ungetc
      ensures Valid() && ungetc == '\0'
      ensures Gives(r, Spec.SkipPastMatch(open, close, 1, old(Pending())), Pending())
    {
      var level: nat := 1;
      while level > 0
        invariant Valid()
        invariant level > 0 ==>
          Spec.SkipPastMatch(open, close, 1, old(Pending())) == Spec.SkipPastMatch(open, close, level, Pending())
        invariant level == 0 ==> Spec.SkipPastMatch(open, close, 1, old(Pending())) == Next(Pending())
        decreases |Pending()|
      {
        ghost var p := Pending();
        SkipPastMatchStep(open, close, level, p);
        var c :- VGetc();
        assert Next(p) == Ok(Read(c, Pending()));
        ghost var next := Spec.Level(open, close, level, c);
        if c == open {
          level := level + 1;
        } else if c == close {
          level := level - 1;
        }
        assert level == next;
      }
      r := VGetc();
    }

    /**
     * readIdentifier: clear the buffer; if `c0` starts an identifier, buffer
     * the run of identifier characters and push back the character that ended it.
     */
    method ReadIdentifier(c0: char) returns (r: Step<bool>)
      requires Valid()
      modifies this`pos, this`rawBack, this`ungetc, this`name
      ensures Valid()
      ensures match Spec.ReadIdentifier(c0, old(Pending()))
        case Eof => r == Eof && ungetc == '\0'
        case Ok(id) => r == Ok(id.found) && name == id.name && Pending() == id.rest
      ensures !IsIdentifierCharacter(c0) ==> pos == old(pos) && rawBack == old(rawBack) && ungetc == old(ungetc)
    {
      name := [];
      if IsIdentifierCharacter(c0) {
        var c := c0;
        PrefixRunEmpty(Spec.RunFrom(c0, Pending()));
        while IsIdentifierCharacter(c)
          invariant Valid()
          invariant |name| > 0 ==> ungetc == '\0'
          invariant (c == c0 && name == []) || |name| > 0
          invariant Spec.RunFrom(c0, old(Pending())) == PrefixRun(name, Spec.RunFrom(c, Pending()))
          decreases |Pending()|
        {
          ghost var here := Pending();
          name := name + [c];
          c :- VGetc();
          RunFromStep(name[..|name| - 1], name[|name| - 1], here, c, Pending());
          assert name[..|name| - 1] + [name[|name| - 1]] == name;
        }
        VUngetc(c);
      }
      return Ok(|name| > 0);
    }

    /**
     * The part of tagNameList's loop after a name: white space, an optional
     * `[..]` dimension, white space and an optional `= value`; returns the
     * character that decides whether another name follows.
     */
    method SkipAfterName() returns (r: Step<char>)
      requires Valid()
      modifies this`pos, this`rawBack, this`ungetc
      ensures Valid() && ungetc == '\0'
      ensures Gives(r, Spec.AfterName(old(Pending())), Pending())
    {
      var d :- VGetc();
      var c :- SkipWhite(d);
      if c == '[' {
        c :- SkipPastMatch('[', ']');
      }
      c :- SkipWhite(c);
      if c == '=' {
        d :- VGetc();
        c :- SkipWhite(d);
        if c == '{' {
          var ignored :- SkipPastMatch('{', '}');
        } else {
          ghost var value := Pending();
          c :- VGetc();
          while c != ',' && c != ';'
            invariant Valid() && ungetc == '\0'
            invariant Spec.SkipValue(value) ==
              if c == ',' || c == ';' then Ok(Read(c, Pending())) else Spec.SkipValue(Pending())
            decreases |Pending()|
          {
            c :- VGetc();
          }
        }
      }
      return Ok(c);
    }

    /**
     * What tagNameList's loop reads after a name: `SkipAfterName`, and when
     * that ends at a ',', the white space after it; says whether another
     * name may follow and at which character. The result's `rest` field is
     * always empty: what is left to read is the scanner's own `Pending()`,
     * which the ensures ties to the specification's `rest`.
     */
    method SkipNameSeparator() returns (r: Step<Spec.Separator>)
      requires Valid()
      modifies this`pos, this`rawBack, this`ungetc
      ensures Valid() && ungetc == '\0'
      ensures match Spec.NameSeparator(old(Pending()))
        case Eof => r == Eof
        case Ok(s) => r.Ok? && r.value.more == s.more && r.value.c == s.c && Pending() == s.rest
    {
      var c :- SkipAfterName();
      if c == ',' {
        var d :- VGetc();
        c :- SkipWhite(d);
        return Ok(Spec.Separator(true, c, []));
      }
      return Ok(Spec.Separator(false, c, []));
    }

    /**
     * One round of tagNameList's loop, from the first character `c` of a
     * name: read the name, emit its tag, and read its separator. `added` is
     * what was emitted; the round's share of `Spec.NameList` is `added`
     * followed by whatever `Continue` says comes after the separator.
     */
    method TagOneName(kind: Kind, c: char) returns (r: Step<Spec.Separator>, ghost added: seq<Tag>)
      requires Valid() && IsIdentifierCharacter(c)
      modifies this`pos, this`rawBack, this`ungetc, this`name, this`tags
      ensures Valid() && tags == old(tags) + added
      ensures ungetc == '\0'
      ensures r.Ok? ==> |Pending()| + (if r.value.more then 1 else 0) < |old(Pending())|
      ensures Spec.NameList(kind, c, old(Pending())) == Prepend(added, Continue(kind, r, Pending()))
    {
      ghost var here := Pending();
      added := [];
      var found := ReadIdentifier(c);
      if found.Eof? {
        return Eof, added;
      }
      var tag := Tag(name, kind);
      tags := tags + [tag];
      added := [tag];
      NameListStep(kind, c, here, name, Pending());
      r := SkipNameSeparator();
    }

    /**
     * tagNameList: starting at the first character `c0` of a name, emit one
     * tag of `kind` per comma-separated name, skipping each name's dimension
     * and initializer; push back the character that ends the list.
     */
    method TagNameList(kind: Kind, c0: char) returns (r: Step<()>)
      requires Valid() && IsIdentifierCharacter(c0)
      modifies this`pos, this`rawBack, this`ungetc, this`name, this`tags
      ensures Valid()
      ensures var e := Spec.NameList(kind, c0, old(Pending()));
        tags == old(tags) + e.tags &&
        match e.rest
        case Eof => r == Eof && ungetc == '\0'
        case Ok(q) => r.Ok? && Pending() == q
    {
      var c := c0;
      var repeat := true;
      ghost var emitted: seq<Tag> := [];
      while repeat
        invariant Valid()
        invariant (repeat && IsIdentifierCharacter(c)) || ungetc == '\0'
        invariant tags == old(tags) + emitted
        invariant repeat ==> Spec.NameList(kind, c0, old(Pending())) == Prepend(emitted, Spec.NameList(kind, c, Pending()))
        invariant !repeat ==> Spec.NameList(kind, c0, old(Pending())) == Prepend(emitted, Spec.Emit([], Ok(Unget(c, Pending()))))
        decreases |Pending()| + (if repeat then 1 else 0)
      {
        repeat := false;
        if !IsIdentifierCharacter(c) {
          break;
        }
        var sep, added := TagOneName(kind, c);
        PrependAssoc(emitted, added, Continue(kind, sep, Pending()));
        TagsAssoc(old(tags), emitted, added);
        emitted := emitted + added;
        if sep.Eof? {
          return Eof;
        }
        repeat, c := sep.value.more, sep.value.c;
      }
      ghost var e := Spec.NameList(kind, c0, old(Pending()));
      assert e == Prepend(emitted, Spec.Emit([], Ok(Unget(c, Pending()))));
      VUngetc(c);
      return Ok(());
    }

    /**
     * The part of findTag after a keyword other than a directive: white
     * space, an optional `(..)` width, an optional `[..]` range and an optional
     * `#(..)` parameter list, each followed by white space; returns the
     * character that may start the first name.
     */
    method SkipDeclarationHead() returns (r: Step<char>)
      requires Valid()
      modifies this`pos, this`rawBack, this`ungetc
      ensures Valid() && ungetc == '\0'
      ensures Gives(r, Spec.DeclarationHead(old(Pending())), Pending())
    {
      var d :- VGetc();
      var c :- SkipWhite(d);
      if c == '(' {
        c :- SkipPastMatch('(', ')');
      }
      c :- SkipWhite(c);
      if c == '[' {
        c :- SkipPastMatch('[', ']');
      }
      c :- SkipWhite(c);
      if c == '#' {
        c :- VGetc();
        if c == '(' {
          c :- SkipPastMatch('(', ')');
        }
      }
      c :- SkipWhite(c);
      return Ok(c);
    }

    /** The end of a `` `define `` line: read through the next newline and push it back. */
    method SkipRestOfLine() returns (r: Step<()>)
      requires Valid()
      modifies this`pos, this`rawBack, this`ungetc
      ensures Valid()
      ensures match Spec.RestOfLine(old(Pending()))
        case Eof => r == Eof && ungetc == '\0'
        case Ok(q) => r.Ok? && Pending() == Unget('\n', q)
    {
      ghost var line := Pending();
      var c :- VGetc();
      while c != '\n'
        invariant Valid() && ungetc == '\0'
        invariant Spec.RestOfLine(line) == if c == '\n' then Ok(Pending()) else Spec.RestOfLine(Pending())
        decreases |Pending()|
      {
        c :- VGetc();
      }
      VUngetc(c);
      return Ok(());
    }

    /**
     * The `` `define `` branch of findTag: read and tag the directive's name,
     * then skip the rest of the line and push its newline back.
     */
    method TagDirective(kind: Kind) returns (r: Step<()>)
      requires Valid()
      modifies this`pos, this`rawBack, this`ungetc, this`name, this`tags
      ensures Valid()
      ensures var e := Spec.Directive(kind, old(Pending()));
        tags == old(tags) + e.tags &&
        match e.rest
        case Eof => r == Eof && ungetc == '\0'
        case Ok(q) => r.Ok? && Pending() == q
    {
      var d :- VGetc();
      var c :- SkipWhite(d);
      var found :- ReadIdentifier(c);
      tags := tags + [Tag(name, kind)];
      r := SkipRestOfLine();
    }

    /**
     * The keyword branch of findTag: skip the declaration head, and when a
     * name follows, tag the name list.
     */
    method TagDeclaration(kind: Kind) returns (r: Step<()>)
      requires Valid()
      modifies this`pos, this`rawBack, this`ungetc, this`name, this`tags
      ensures Valid()
      ensures var e := Spec.Declaration(kind, old(Pending()));
        tags == old(tags) + e.tags &&
        match e.rest
        case Eof => r == Eof && ungetc == '\0'
        case Ok(q) => r.Ok? && Pending() == q
    {
      var c :- SkipDeclarationHead();
      if IsIdentifierCharacter(c) {
        r := TagNameList(kind, c);
      } else {
        assert tags == old(tags) + [];
        r := Ok(());
      }
    }

    /**
     * findTag: classify the buffered identifier and handle what follows it: a
     * `` `define `` line, or a keyword's width, parameters and name list.
     */
    method FindTag() returns (r: Step<()>)
      requires Valid()
      modifies this`pos, this`rawBack, this`ungetc, this`name, this`tags
      ensures Valid()
      ensures var e := Spec.FindTag(old(name), old(Pending()));
        tags == old(tags) + e.tags &&
        match e.rest
        case Eof => r == Eof && ungetc == '\0'
        case Ok(q) => r.Ok? && Pending() == q
    {
      var kind := Lookup(name);
      if kind == Constant && |name| > 0 && name[0] == '`' {
        r := TagDirective(kind);
      } else if kind != Undefined {
        r := TagDeclaration(kind);
      } else {
        assert tags == old(tags) + [];
        r := Ok(());
      }
    }

    /**
     * findVerilogTags: read the whole input, classifying only identifiers
     * read at a statement start; end of input ends the scan and keeps the
     * tags emitted so far, and leaves the pushback slot empty.
     */
    method FindVerilogTags()
      requires Valid()
      modifies this`pos, this`rawBack, this`ungetc, this`name, this`tags
      ensures Valid() && ungetc == '\0'
      ensures tags == old(tags) + Spec.Scan(true, old(Pending()))
    {
      var newStatement := true;
      while true
        invariant Valid()
        invariant old(tags) + Spec.Scan(true, old(Pending())) == tags + Spec.Scan(newStatement, Pending())
        decreases |Pending()|
      {
        var next := VGetc();
        if next.Eof? {
          return;
        }
        var c := next.value;
        if c == ';' || c == '\n' {
          newStatement := true;
        } else if c == ' ' || c == '\t' {
        } else {
          if newStatement {
            var found := ReadIdentifier(c);
            if found.Eof? {
              return;
            }
            if found.value {
              ghost var before := tags;
              ghost var e := Spec.FindTag(name, Pending());
              var done := FindTag();
              if done.Eof? {
                assert tags == before + e.tags + [];
                return;
              }
              TagsAssoc(before, e.tags, Spec.Scan(false, Pending()));
            }
          }
          newStatement := false;
        }
      }
    }
  }

  /** Tag a whole file: scan `text` from a fresh scanner and return what it emitted. */
  method TagFile(text: seq<char>) returns (tags: seq<Tag>)
    ensures tags == Spec.Scan(true, text)
  {
    var s := new Scanner(text);
    s.FindVerilogTags();
    tags := s.tags;
  }
}
