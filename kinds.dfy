/**
 * Declaration kinds, emitted tags, the character classes the scanner tests,
 * and the keyword table that classifies the identifier opening a statement.
 */
module VerilogKinds {

  /** The kinds a tag can have; `Undefined` is what an unlisted identifier classifies as. */
  datatype Kind = Constant | Event | Function | Module | Net | Port | Register | Task | Undefined

  /** One emitted tag: the declared name and its kind. */
  datatype Tag = Tag(name: string, kind: Kind)

  /** One entry of the keyword table. */
  datatype Keyword = Keyword(text: string, kind: Kind)

  /** The keyword table, entry for entry and in the order the scanner lists it. */
  const KeywordTable: seq<Keyword> := [
    Keyword("`define", Constant),
    Keyword("event", Event),
    Keyword("function", Function),
    Keyword("inout", Port),
    Keyword("input", Port),
    Keyword("integer", Register),
    Keyword("module", Module),
    Keyword("output", Port),
    Keyword("parameter", Constant),
    Keyword("real", Register),
    Keyword("realtime", Register),
    Keyword("reg", Register),
    Keyword("specparam", Constant),
    Keyword("supply0", Net),
    Keyword("supply1", Net),
    Keyword("task", Task),
    Keyword("time", Register),
    Keyword("tri0", Net),
    Keyword("tri1", Net),
    Keyword("triand", Net),
    Keyword("tri", Net),
    Keyword("trior", Net),
    Keyword("trireg", Net),
    Keyword("wand", Net),
    Keyword("wire", Net),
    Keyword("wor", Net)
  ]

  /** ASCII letters and digits (the C locale's `isalnum`). */
  predicate IsAlnum(c: char) {
    ('a' <= c <= 'z') || ('A' <= c <= 'Z') || ('0' <= c <= '9')
  }

  /** ASCII white space (the C locale's `isspace`). */
  predicate IsSpace(c: char) {
    c == ' ' || c == '\t' || c == '\n' || c == '\r' || c == '\U{000C}' || c == '\U{000B}'
  }

  /** Characters that may make up an identifier; the backtick admits directive names. */
  predicate IsIdentifierCharacter(c: char) {
    IsAlnum(c) || c == '_' || c == '`'
  }

  /** A non-empty run of identifier characters. */
  predicate IsWord(w: string) {
    |w| > 0 && forall i :: 0 <= i < |w| ==> IsIdentifierCharacter(w[i])
  }

  /** Entry `j` is the first of `table`, from entry `i` on, spelled `text`. */
  predicate FirstSpelled(table: seq<Keyword>, text: string, i: nat, j: nat) {
    i <= j < |table| && table[j].text == text && forall m :: i <= m < j ==> table[m].text != text
  }

  /** Search `table` from entry `i` on for an entry spelled exactly `text`; the first one wins. */
  function LookupFrom(table: seq<Keyword>, text: string, i: nat): (k: Kind)
    requires forall j :: 0 <= j < |table| ==> table[j].kind != Undefined
    decreases |table| - i
    ensures k == Undefined <==> forall j :: i <= j < |table| ==> table[j].text != text
    ensures forall j: nat :: FirstSpelled(table, text, i, j) ==> k == table[j].kind
  {
    if i >= |table| then Undefined
    else if table[i].text == text then table[i].kind
    else LookupFrom(table, text, i + 1)
  }

  /** Exact, case-sensitive keyword lookup; an unlisted text is `Undefined`. */
  function Lookup(text: string): (k: Kind)
    ensures k == Undefined <==> forall j :: 0 <= j < |KeywordTable| ==> KeywordTable[j].text != text
    ensures forall j: nat :: FirstSpelled(KeywordTable, text, 0, j) ==> k == KeywordTable[j].kind
  {
    KeywordsDefined();
    LookupFrom(KeywordTable, text, 0)
  }

  /** Every entry of the table names a real kind. */
  lemma KeywordsDefined()
    ensures forall j :: 0 <= j < |KeywordTable| ==> KeywordTable[j].kind != Undefined
  {
  }

  /** Every keyword is spelled with identifier characters, so the scanner can read it whole. */
  lemma KeywordsAreWords()
    ensures forall j :: 0 <= j < |KeywordTable| ==> IsWord(KeywordTable[j].text)
  {
  }

  /** `wire` declares a net. */
  lemma LookupWire()
    ensures Lookup("wire") == Net
  {
    assert FirstSpelled(KeywordTable, "wire", 0, 24);
  }

  /** `parameter` declares a constant. */
  lemma LookupParameter()
    ensures Lookup("parameter") == Constant
  {
    assert FirstSpelled(KeywordTable, "parameter", 0, 8);
  }

  /** The `` `define `` directive declares a constant. */
  lemma LookupDefine()
    ensures Lookup("`define") == Constant
  {
    assert FirstSpelled(KeywordTable, "`define", 0, 0);
  }

  /** `reg` declares a register. */
  lemma LookupReg()
    ensures Lookup("reg") == Register
  {
    assert FirstSpelled(KeywordTable, "reg", 0, 11);
  }

  /** `inout` declares a port. */
  lemma LookupInout()
    ensures Lookup("inout") == Port
  {
    assert FirstSpelled(KeywordTable, "inout", 0, 3);
  }

  /** Every keyword starts with a lower-case letter or the backtick. */
  lemma KeywordsStartLowerCase()
    ensures forall j :: 0 <= j < |KeywordTable| ==>
      |KeywordTable[j].text| > 0 && ('a' <= KeywordTable[j].text[0] <= 'z' || KeywordTable[j].text[0] == '`')
  {
  }

  /** The lookup is case-sensitive: a capitalised keyword is `Undefined`. */
  lemma LookupIsCaseSensitive()
    ensures Lookup("Wire") == Undefined && Lookup("REG") == Undefined && Lookup("Module") == Undefined
  {
    KeywordsStartLowerCase();
  }
}
