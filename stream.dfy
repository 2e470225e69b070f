/**
 * The logical character stream the scanner reads through `vGetc`.
 *
 * The scanner's whole input state (the one-slot pushback, the host reader's
 * own pushback and the unread input) is seen here as one pending sequence of
 * raw characters. Reading the next logical character is a function of that
 * sequence: comments are elided, a string literal becomes one '@', and end of
 * input is the `Eof` outcome that stops the whole scan.
 */
module VerilogStream {

  /** The outcome of a read: a value, or end of input (which unwinds the whole scan). */
  datatype Step<T> = Ok(value: T) | Eof {
    predicate IsFailure() { Eof? }
    function PropagateFailure<U>(): Step<U> requires Eof? { Eof }
    function Extract(): T requires Ok? { value }
  }

  /** A character handed to the scanner and the pending stream behind it. */
  datatype Read = Read(c: char, rest: seq<char>)

  /** Pushing `c` back in front of the pending stream; the slot uses '\0' for "empty", so a '\0' is lost. */
  function Unget(c: char, p: seq<char>): seq<char> {
    if c == '\0' then p else [c] + p
  }

  /** What is left after a `//` comment body: everything after the first newline; `Eof` when there is none. */
  function AfterLine(s: seq<char>): (r: Step<seq<char>>)
    ensures r.Ok? ==> |r.value| < |s|
  {
    if s == [] then Eof
    else if s[0] == '\n' then Ok(s[1..])
    else AfterLine(s[1..])
  }

  /** What is left after a string body: everything after the first '"'; nothing when it is unterminated. */
  function AfterQuote(s: seq<char>): (r: seq<char>)
    ensures |r| <= |s|
  {
    if s == [] then []
    else if s[0] == '"' then s[1..]
    else AfterQuote(s[1..])
  }

  /** What is left after a block comment body: everything after the first "*" "/"; `Eof` when unclosed. */
  function AfterComment(s: seq<char>): (r: Step<seq<char>>)
    ensures r.Ok? ==> |r.value| + 2 <= |s|
  {
    if |s| < 2 then Eof
    else if s[0] == '*' && s[1] == '/' then Ok(s[2..])
    else AfterComment(s[1..])
  }

  /**
   * The next logical character (vGetc). A `//` comment yields the newline
   * that ends it, a block comment yields the raw character after it, a
   * string literal yields '@', and a '/' starting neither is itself, with the
   * character after it left unread. Every successful read consumes input.
   */
  function Next(p: seq<char>): (r: Step<Read>)
    ensures r.Ok? ==> |r.value.rest| < |p|
    ensures p == [] ==> r == Eof
  {
    if p == [] then Eof
    else if p[0] == '/' then
      if |p| == 1 then Eof
      else if p[1] == '/' then
        match AfterLine(p[2..])
        case Eof => Eof
        case Ok(q) => Ok(Read('\n', q))
      else if p[1] == '*' then
        match AfterComment(p[2..])
        case Eof => Eof
        case Ok(q) => if q == [] then Eof else Ok(Read(q[0], q[1..]))
      else Ok(Read('/', p[1..]))
    else if p[0] == '"' then Ok(Read('@', AfterQuote(p[1..])))
    else Ok(Read(p[0], p[1..]))
  }

  /** A character the adapter passes through unchanged. */
  predicate IsPlain(c: char) {
    c != '/' && c != '"'
  }

  /** Text that holds no comment opener and no string delimiter. */
  predicate IsPlainText(s: seq<char>) {
    forall i :: 0 <= i < |s| ==> IsPlain(s[i])
  }

  /** A plain character reads as itself and consumes exactly itself. */
  lemma NextPlain(c: char, t: seq<char>)
    requires IsPlain(c)
    ensures Next([c] + t) == Ok(Read(c, t))
  {
    assert ([c] + t)[1..] == t;
  }

  /** Pushing back a plain character and reading again returns that character and the same stream. */
  lemma PushbackRoundTrip(c: char, p: seq<char>)
    requires IsPlain(c) && c != '\0'
    ensures Next(Unget(c, p)) == Ok(Read(c, p))
  {
    NextPlain(c, p);
  }

  /** The body of a `//` comment is skipped up to its first newline. */
  lemma {:induction false} AfterLineFirst(s: seq<char>, t: seq<char>)
    requires forall i :: 0 <= i < |s| ==> s[i] != '\n'
    ensures AfterLine(s + ['\n'] + t) == Ok(t)
    ensures AfterLine(s) == Eof
  {
    if s == [] {
      assert ([] + ['\n'] + t)[1..] == t;
    } else {
      assert (s + ['\n'] + t)[1..] == s[1..] + ['\n'] + t;
      AfterLineFirst(s[1..], t);
    }
  }

  /**
   * `//` consumes every character up to the next newline and returns that
   * newline; with no newline before the end of input it is end of input.
   */
  lemma LineCommentElided(s: seq<char>, t: seq<char>)
    requires forall i :: 0 <= i < |s| ==> s[i] != '\n'
    ensures Next(['/', '/'] + s + ['\n'] + t) == Ok(Read('\n', t))
    ensures Next(['/', '/'] + s) == Eof
  {
    AfterLineFirst(s, t);
    assert (['/', '/'] + s + ['\n'] + t)[2..] == s + ['\n'] + t;
    assert (['/', '/'] + s)[2..] == s;
  }

  /** A string body is skipped through its first closing quote. */
  lemma {:induction false} AfterQuoteFirst(s: seq<char>, t: seq<char>)
    requires forall i :: 0 <= i < |s| ==> s[i] != '"'
    ensures AfterQuote(s + ['"'] + t) == t
    ensures AfterQuote(s) == []
  {
    if s == [] {
      assert ([] + ['"'] + t)[1..] == t;
    } else {
      assert (s + ['"'] + t)[1..] == s[1..] + ['"'] + t;
      AfterQuoteFirst(s[1..], t);
    }
  }

  /**
   * A string literal reads as one '@' and consumes everything through its
   * closing quote; an unterminated one still reads as '@' and consumes the rest.
   */
  lemma StringElided(s: seq<char>, t: seq<char>)
    requires forall i :: 0 <= i < |s| ==> s[i] != '"'
    ensures Next(['"'] + s + ['"'] + t) == Ok(Read('@', t))
    ensures Next(['"'] + s) == Ok(Read('@', []))
  {
    AfterQuoteFirst(s, t);
    assert (['"'] + s + ['"'] + t)[1..] == s + ['"'] + t;
    assert (['"'] + s)[1..] == s;
  }

  /** No "*" "/" pair occurs in `s`. */
  predicate NoCommentClose(s: seq<char>) {
    forall i :: 0 <= i < |s| - 1 ==> !(s[i] == '*' && s[i + 1] == '/')
  }

  /** A block comment body is skipped through its first "*" "/". */
  lemma {:induction false} AfterCommentFirst(s: seq<char>, t: seq<char>)
    requires NoCommentClose(s)
    ensures AfterComment(s + ['*', '/'] + t) == Ok(t)
    ensures AfterComment(s) == Eof
  {
    if s == [] {
      assert ([] + ['*', '/'] + t)[2..] == t;
    } else {
      var u := s + ['*', '/'] + t;
      assert u[1..] == s[1..] + ['*', '/'] + t;
      assert |s| == 1 ==> u[1] == '*';
      assert |s| > 1 ==> u[1] == s[1];
      assert NoCommentClose(s[1..]) by {
        forall i | 0 <= i < |s[1..]| - 1 ensures !(s[1..][i] == '*' && s[1..][i + 1] == '/') {
          assert s[1..][i] == s[i + 1] && s[1..][i + 1] == s[i + 2];
        }
      }
      AfterCommentFirst(s[1..], t);
    }
  }

  /**
   * A block comment is skipped through its first close and the character
   * after it is returned as it stands; a comment that is not closed, or is
   * closed at the very end of input, is end of input.
   */
  lemma BlockCommentElided(s: seq<char>, x: char, t: seq<char>)
    requires NoCommentClose(s)
    ensures Next(['/', '*'] + s + ['*', '/'] + [x] + t) == Ok(Read(x, t))
    ensures Next(['/', '*'] + s + ['*', '/']) == Eof
    ensures Next(['/', '*'] + s) == Eof
  {
    AfterCommentFirst(s, [x] + t);
    AfterCommentFirst(s, []);
    assert (['/', '*'] + s + ['*', '/'] + [x] + t)[2..] == s + ['*', '/'] + ([x] + t);
    assert (['/', '*'] + s + ['*', '/'])[2..] == s + ['*', '/'] + [];
    assert (['/', '*'] + s)[2..] == s;
  }

  /**
   * A '/' that opens no comment reads as '/' and leaves the next character
   * unread; a '/' at the very end of input is end of input.
   */
  lemma LoneSlash(x: char, t: seq<char>)
    requires x != '/' && x != '*'
    ensures Next(['/', x] + t) == Ok(Read('/', [x] + t))
    ensures Next(['/']) == Eof
  {
    assert (['/', x] + t)[1..] == [x] + t;
  }
}
