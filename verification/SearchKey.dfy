/** The key of a cached search: every input that changes the result, the two free texts prefixed by their lengths. */
module SearchKey {
  import opened Wrappers
  import opened Decimals
  import opened Strings

  // A query and a language are byte strings of any content.
  datatype Search = Search(query: string, language: string, fuzzy: bool, limit: int, offset: int)

  function Prefixed(text: string): string {
    Nat(|text|) + ":" + text
  }

  function Fields(s: Search): string {
    "|" + (if s.fuzzy then "1" else "0") + "|" + Int(s.limit) + "|" + Int(s.offset)
  }

  function Key(s: Search): string {
    Prefixed(s.query) + "|" + Prefixed(s.language) + Fields(s)
  }

  // The text after a length prefix, and what follows it.
  function ReadPrefixed(s: string): Option<(string, string)> {
    var colon := IndexByte(s, ':');
    if colon < 0 || colon + 1 + Digits(s[..colon]) > |s| then None
    else
      var end := colon + 1 + Digits(s[..colon]);
      Some((s[colon + 1..end], s[end..]))
  }

  function Parse(key: string): Option<Search> {
    var q := ReadPrefixed(key);
    if q.None? || q.value.1 == "" then None
    else
      var l := ReadPrefixed(q.value.1[1..]);
      if l.None? then None else ParseFields(q.value.0, l.value.0, Split(l.value.1, '|'))
  }

  function ParseFields(query: string, language: string, fields: seq<string>): Option<Search> {
    if |fields| != 4 || !IsNumeral(fields[2]) || !IsNumeral(fields[3]) then None
    else Some(Search(query, language, fields[1] == "1", ReadInt(fields[2]), ReadInt(fields[3])))
  }

  predicate IsNumeral(s: string) {
    forall c <- s :: IsDigit(c) || c == '-'
  }

  lemma ReadPrefixedBack(text: string, rest: string)
    ensures ReadPrefixed(Prefixed(text) + rest) == Some((text, rest))
  {
    var n := Nat(|text|);
    assert !IsDigit(':');
    var s := Prefixed(text) + rest;
    assert s == n + [':'] + (text + rest);
    IndexAfter(n, ':', text + rest);
    ReadNatBack(|text|);
    assert s[..|n|] == n;
    assert s[|n| + 1..] == text + rest;
  }

  lemma FieldsParse(s: Search)
    ensures ParseFields(s.query, s.language, Split(Fields(s), '|')) == Some(s)
  {
    var fuzzy, a, b := if s.fuzzy then "1" else "0", Int(s.limit), Int(s.offset);
    ReadIntBack(s.limit);
    ReadIntBack(s.offset);
    assert !IsDigit('|');
    FourFields(fuzzy, a, b);
    assert Fields(s) == "|" + fuzzy + "|" + a + "|" + b;
    assert (fuzzy == "1") == s.fuzzy;
  }

  lemma FourFields(f: string, a: string, b: string)
    requires '|' !in f && '|' !in a && '|' !in b
    ensures Split("|" + f + "|" + a + "|" + b, '|') == ["", f, a, b]
  {
    assert "|" + f + "|" + a + "|" + b == [] + ['|'] + (f + ['|'] + (a + ['|'] + b));
    SplitWhole(b, '|');
    SplitFirst(a, '|', b);
    SplitFirst(f, '|', a + ['|'] + b);
    SplitFirst([], '|', f + ['|'] + (a + ['|'] + b));
  }

  /** Every part of a search is read back from its key, whatever the texts hold. */
  lemma KeyParses(s: Search)
    ensures Parse(Key(s)) == Some(s)
  {
    var fields, tail := Fields(s), ['|'] + (Prefixed(s.language) + Fields(s));
    Regroup(Prefixed(s.query), Prefixed(s.language), fields);
    ReadPrefixedBack(s.query, tail);
    assert tail[1..] == Prefixed(s.language) + fields;
    ReadPrefixedBack(s.language, fields);
    FieldsParse(s);
  }

  lemma Regroup(a: string, b: string, c: string)
    ensures a + "|" + b + c == a + (['|'] + (b + c))
  {}

  /** Two searches share a cached result only if they are the same search. */
  lemma KeyInjective(a: Search, b: Search)
    requires Key(a) == Key(b)
    ensures a == b
  {
    KeyParses(a);
    KeyParses(b);
  }
}
