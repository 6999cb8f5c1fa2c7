/**
  The content security policy: operator origins are sanitised, directives are assembled around a nonce sentinel, and
  each response gets the policy split at the sentinel with its own nonce spliced in.
 */
module Csp {
  import opened Wrappers
  import opened Sequences
  import opened Strings

  const NONCE_SENTINEL := "\0CSP_NONCE\0"

  datatype Options = Options(nonce: bool, connectExtra: seq<string>, imgExtra: seq<string>,
                             reportUri: string, disableHsts: bool)

  // ---------------------------------------------------------------- sanitising

  // The white space of Unicode.
  predicate IsSpace(c: char) {
    || '\t' <= c <= '\r' || c == ' ' || c == '\U{85}' || c == '\U{A0}' || c == '\U{1680}' ||
       '\U{2000}' <= c <= '\U{200A}'
    || c == '\U{2028}' || c == '\U{2029}' || c == '\U{202F}' || c == '\U{205F}' || c == '\U{3000}'
  }

  function TrimLeft(s: string): string {
    if s != [] && IsSpace(s[0]) then TrimLeft(s[1..]) else s
  }

  function TrimRight(s: string): string {
    if s != [] && IsSpace(s[|s| - 1]) then TrimRight(s[..|s| - 1]) else s
  }

  function TrimSpace(s: string): string {
    TrimRight(TrimLeft(s))
  }

  predicate IsSeparator(c: char) {
    c == ';' || c == ',' || c <= ' ' || c == '\U{7F}'
  }

  // The origins that can stand inside a directive.
  predicate Clean(s: string) {
    s != "" && forall c <- s :: !IsSeparator(c)
  }

  function Sanitised(origins: seq<string>): seq<string> {
    if origins == [] then []
    else
      var s := TrimSpace(origins[|origins| - 1]);
      Sanitised(origins[..|origins| - 1]) + if Clean(s) then [s] else []
  }

  function Trimmed(origins: seq<string>): seq<string> {
    seq(|origins|, i requires 0 <= i < |origins| => TrimSpace(origins[i]))
  }

  method SanitiseOrigins(origins: seq<string>) returns (r: seq<string>)
    ensures r == Sanitised(origins)
  {
    r := [];
    for i := 0 to |origins|
      invariant r == Sanitised(origins[..i])
    {
      assert origins[..i + 1][..i] == origins[..i];
      var s := TrimSpace(origins[i]);
      if s == "" { continue; }
      if exists c <- s :: IsSeparator(c) { continue; }
      r := r + [s];
    }
    assert origins[..|origins|] == origins;
  }

  function SanitisedUri(s: string): string {
    if Clean(TrimSpace(s)) then TrimSpace(s) else ""
  }

  // White space is 25 characters of Unicode.
  lemma SpaceMeans(c: char)
    ensures IsSpace(c) <==>
      c in "\t\n\U{0B}\U{0C}\r \U{85}\U{A0}\U{1680}\U{2000}\U{2001}\U{2002}\U{2003}\U{2004}\U{2005}\U{2006}" +
           "\U{2007}\U{2008}\U{2009}\U{200A}\U{2028}\U{2029}\U{202F}\U{205F}\U{3000}"
  {
  }

  // Without separators, spelled out.
  lemma CleanMeans(s: string)
    ensures Clean(s) <==> s != "" && forall c <- s :: c != ';' && c != ',' && c > ' ' && c != '\U{7F}'
  {
    assert forall c <- s :: IsSeparator(c) <==> !(c != ';' && c != ',' && c > ' ' && c != '\U{7F}');
  }

  lemma {:induction false} SanitisedAre(origins: seq<string>)
    ensures forall s :: s in Sanitised(origins) <==> Clean(s) && s in Trimmed(origins)
    ensures Subsequence(Sanitised(origins), Trimmed(origins))
  {
    if origins != [] {
      var n := |origins| - 1;
      SanitisedAre(origins[..n]);
      assert Trimmed(origins) == Trimmed(origins[..n]) + [TrimSpace(origins[n])];
      SubsequenceAppend(Sanitised(origins[..n]), Trimmed(origins[..n]), TrimSpace(origins[n]));
      assert Sanitised(origins[..n]) + [] == Sanitised(origins[..n]);
    }
  }

  lemma {:induction false} SanitisedAsOften(origins: seq<string>, s: string)
    requires Clean(s)
    ensures multiset(Sanitised(origins))[s] == multiset(Trimmed(origins))[s]
  {
    if origins != [] {
      var n := |origins| - 1;
      SanitisedAsOften(origins[..n], s);
      assert Trimmed(origins) == Trimmed(origins[..n]) + [TrimSpace(origins[n])];
    }
  }

  /** Sanitising keeps exactly the entries that, trimmed, are not empty and free of separators, control characters and
      spaces, in order and as often as they occur. */
  lemma SanitisedMeans(origins: seq<string>)
    ensures forall s :: s in Sanitised(origins) <==>
              exists o <- origins ::
                s == TrimSpace(o) && s != "" && forall c <- s :: c != ';' && c != ',' && c > ' ' && c != '\U{7F}'
    ensures Subsequence(Sanitised(origins), Trimmed(origins))
    ensures forall s <- Sanitised(origins) :: multiset(Sanitised(origins))[s] == multiset(Trimmed(origins))[s]
  {
    SanitisedAre(origins);
    forall s ensures s in Trimmed(origins) <==> exists o <- origins :: s == TrimSpace(o) {
      if s in Trimmed(origins) {
        var i :| 0 <= i < |origins| && Trimmed(origins)[i] == s;
        assert origins[i] in origins;
      }
      if o :| o in origins && s == TrimSpace(o) {
        var i :| 0 <= i < |origins| && origins[i] == o;
        assert Trimmed(origins)[i] == s;
      }
    }
    forall s ensures Clean(s) <==> s != "" && forall c <- s :: c != ';' && c != ',' && c > ' ' && c != '\U{7F}' {
      CleanMeans(s);
    }
    forall s <- Sanitised(origins) ensures multiset(Sanitised(origins))[s] == multiset(Trimmed(origins))[s] {
      SanitisedAsOften(origins, s);
    }
  }

  /** A report address is kept, trimmed, under the same condition, and dropped otherwise. */
  lemma SanitisedUriMeans(s: string)
    ensures var t := TrimSpace(s);
            SanitisedUri(s) ==
            if t != "" && forall c <- t :: c != ';' && c != ',' && c > ' ' && c != '\U{7F}' then t else ""
  {
    CleanMeans(TrimSpace(s));
  }

  lemma {:induction false} TrimLeftMeans(s: string) returns (l: string)
    ensures s == l + TrimLeft(s) && (forall c <- l :: IsSpace(c)) && (TrimLeft(s) != "" ==> !IsSpace(TrimLeft(s)[0]))
  {
    l := "";
    if s != [] && IsSpace(s[0]) {
      var rest := TrimLeftMeans(s[1..]);
      l := [s[0]] + rest;
      assert s == [s[0]] + s[1..];
    }
  }

  lemma {:induction false} TrimRightMeans(s: string) returns (r: string)
    ensures s == TrimRight(s) + r && (forall c <- r :: IsSpace(c))
    ensures TrimRight(s) != "" ==> !IsSpace(TrimRight(s)[|TrimRight(s)| - 1])
  {
    r := "";
    if s != [] && IsSpace(s[|s| - 1]) {
      var rest := TrimRightMeans(s[..|s| - 1]);
      r := rest + [s[|s| - 1]];
      assert s == s[..|s| - 1] + [s[|s| - 1]];
    }
  }

  /** Trimming removes white space at both ends, all of it and nothing else. */
  lemma TrimSpaceMeans(s: string) returns (l: string, r: string)
    ensures s == l + TrimSpace(s) + r && forall c <- l + r :: IsSpace(c)
    ensures TrimSpace(s) != "" ==> !IsSpace(TrimSpace(s)[0]) && !IsSpace(TrimSpace(s)[|TrimSpace(s)| - 1])
  {
    l := TrimLeftMeans(s);
    r := TrimRightMeans(TrimLeft(s));
    assert TrimLeft(s)[..|TrimSpace(s)|] == TrimSpace(s);
  }

  // ---------------------------------------------------------------- the policy

  datatype Directive = Directive(name: string, sources: seq<string>)

  function Text(d: Directive): string {
    Join([d.name] + d.sources, " ")
  }

  function Texts(ds: seq<Directive>): seq<string> {
    seq(|ds|, i requires 0 <= i < |ds| => Text(ds[i]))
  }

  function Policy(ds: seq<Directive>): string {
    Join(Texts(ds), "; ")
  }

  function ScriptSrc(nonceSources: seq<string>): Directive {
    Directive("script-src", ["'self'"] + nonceSources)
  }

  const DEFAULT_SRC := Directive("default-src", ["'self'"])

  function Core(o: Options): seq<Directive> {
    [ Directive("style-src", ["'self'", "'unsafe-inline'"]),
      Directive("img-src", ["'self'", "data:", "blob:"] + Sanitised(o.imgExtra)),
      Directive("font-src", ["'self'", "data:"]),
      Directive("connect-src", ["'self'"] + Sanitised(o.connectExtra)),
      Directive("frame-ancestors", ["'none'"]),
      Directive("form-action", ["'self'"]),
      Directive("base-uri", ["'self'"]),
      Directive("object-src", ["'none'"]) ]
  }

  // Everything after script-src.
  function Others(o: Options): seq<Directive> {
    Core(o)
    + (if o.disableHsts then [] else [Directive("upgrade-insecure-requests", [])])
    + (if SanitisedUri(o.reportUri) == "" then [] else [Directive("report-uri", [SanitisedUri(o.reportUri)])])
  }

  // The directives that options mean, with the given nonce source or none.
  function Intended(o: Options, nonceSources: seq<string>): seq<Directive> {
    [DEFAULT_SRC, ScriptSrc(nonceSources)] + Others(o)
  }

  function NonceSource(nonce: string): string {
    "'nonce-" + nonce + "'"
  }

  lemma NameFirst(name: string, sources: seq<string>)
    requires sources != []
    ensures Text(Directive(name, sources)) == name + " " + Join(sources, " ")
  {
    assert ([name] + sources)[1..] == sources;
  }

  lemma OneSource(name: string, source: string)
    ensures Text(Directive(name, [source])) == name + " " + source
  {
    NameFirst(name, [source]);
  }

  lemma TwoSources(name: string, first: string, second: string)
    ensures Text(Directive(name, [first, second])) == name + " " + first + " " + second
  {
    NameFirst(name, [first, second]);
    assert [first, second][1..] == [second];
    assert Join([first, second], " ") == first + " " + second;
  }

  // The directives the source spells out in full.
  lemma SpelledOut()
    ensures Text(DEFAULT_SRC) == "default-src 'self'" && Text(ScriptSrc([])) == "script-src 'self'"
  {
    OneSource("default-src", "'self'");
    OneSource("script-src", "'self'");
    assert ["'self'"] + [] == ["'self'"];
  }

  lemma SpelledOutLists()
    ensures Text(Directive("style-src", ["'self'", "'unsafe-inline'"])) == "style-src 'self' 'unsafe-inline'"
    ensures Text(Directive("font-src", ["'self'", "data:"])) == "font-src 'self' data:"
  {
    TwoSources("style-src", "'self'", "'unsafe-inline'");
    TwoSources("font-src", "'self'", "data:");
  }

  lemma SpelledOutToo()
    ensures Text(Directive("frame-ancestors", ["'none'"])) == "frame-ancestors 'none'"
    ensures Text(Directive("form-action", ["'self'"])) == "form-action 'self'"
    ensures Text(Directive("base-uri", ["'self'"])) == "base-uri 'self'"
    ensures Text(Directive("object-src", ["'none'"])) == "object-src 'none'"
    ensures Text(Directive("upgrade-insecure-requests", [])) == "upgrade-insecure-requests"
  {
    OneSource("frame-ancestors", "'none'");
    OneSource("form-action", "'self'");
    OneSource("base-uri", "'self'");
    OneSource("object-src", "'none'");
    assert ["upgrade-insecure-requests"] + [] == ["upgrade-insecure-requests"];
  }

  lemma TextsJoin(a: seq<Directive>, b: seq<Directive>)
    ensures Texts(a + b) == Texts(a) + Texts(b)
  {}

  lemma NonceText(nonce: string)
    ensures Text(ScriptSrc([NonceSource(nonce)])) == "script-src 'self'" + " 'nonce-" + nonce + "'"
  {
    TwoSources("script-src", "'self'", NonceSource(nonce));
    assert ["'self'"] + [NonceSource(nonce)] == ["'self'", NonceSource(nonce)];
    assert "script-src" + " " + "'self'" == "script-src 'self'";
    assert " " + "'nonce-" == " 'nonce-";
  }

  function Planted(o: Options): seq<string> {
    if o.nonce then [NonceSource(NONCE_SENTINEL)] else []
  }

  lemma CoreTexts(o: Options)
    ensures Texts([DEFAULT_SRC, ScriptSrc(Planted(o))] + Core(o)) == [
      "default-src 'self'",
      if o.nonce then "script-src 'self'" + " 'nonce-" + NONCE_SENTINEL + "'" else "script-src 'self'",
      "style-src 'self' 'unsafe-inline'",
      "img-src " + Join(["'self'", "data:", "blob:"] + Sanitised(o.imgExtra), " "),
      "font-src 'self' data:",
      "connect-src " + Join(["'self'"] + Sanitised(o.connectExtra), " "),
      "frame-ancestors 'none'",
      "form-action 'self'",
      "base-uri 'self'",
      "object-src 'none'" ]
  {
    SpelledOut();
    SpelledOutLists();
    SpelledOutToo();
    NonceText(NONCE_SENTINEL);
    NameFirst("img-src", ["'self'", "data:", "blob:"] + Sanitised(o.imgExtra));
    NameFirst("connect-src", ["'self'"] + Sanitised(o.connectExtra));
    assert "img-src" + " " == "img-src " && "connect-src" + " " == "connect-src ";
  }

  method BuildCsp(o: Options) returns (policy: string)
    ensures policy == Policy(Intended(o, Planted(o)))
  {
    var connect := ["'self'"];
    var extra := SanitiseOrigins(o.connectExtra);
    connect := connect + extra;
    var img := ["'self'", "data:", "blob:"];
    extra := SanitiseOrigins(o.imgExtra);
    img := img + extra;
    var scriptSrc := "script-src 'self'";
    if o.nonce {
      scriptSrc := scriptSrc + " 'nonce-" + NONCE_SENTINEL + "'";
    }
    var directives := [
      "default-src 'self'",
      scriptSrc,
      "style-src 'self' 'unsafe-inline'",
      "img-src " + Join(img, " "),
      "font-src 'self' data:",
      "connect-src " + Join(connect, " "),
      "frame-ancestors 'none'",
      "form-action 'self'",
      "base-uri 'self'",
      "object-src 'none'" ];
    SpelledOutToo();
    CoreTexts(o);
    ghost var core := [DEFAULT_SRC, ScriptSrc(Planted(o))] + Core(o);
    ghost var upgrade := if o.disableHsts then [] else [Directive("upgrade-insecure-requests", [])];
    if !o.disableHsts {
      directives := directives + ["upgrade-insecure-requests"];
    }
    TextsJoin(core, upgrade);
    assert directives == Texts(core + upgrade);
    var uri := SanitisedUri(o.reportUri);
    ghost var report := if uri == "" then [] else [Directive("report-uri", [uri])];
    if uri != "" {
      OneSource("report-uri", uri);
      assert "report-uri" + " " == "report-uri ";
      directives := directives + ["report-uri " + uri];
    }
    TextsJoin(core + upgrade, report);
    assert directives == Texts(core + upgrade + report);
    assert Intended(o, Planted(o)) == core + upgrade + report;
    policy := Join(directives, "; ");
  }

  // ---------------------------------------------------------------- reading a policy back

  function DropSpaces(s: string): string {
    if s != [] && s[0] == ' ' then DropSpaces(s[1..]) else s
  }

  // How a policy is read: directives between semicolons, a name and sources between spaces.
  function ReadDirective(piece: string): Directive {
    var words := Split(DropSpaces(piece), ' ');
    Directive(words[0], words[1..])
  }

  function Parse(policy: string): seq<Directive> {
    var pieces := Split(policy, ';');
    seq(|pieces|, i requires 0 <= i < |pieces| => ReadDirective(pieces[i]))
  }

  // A word that no separator of any level can break.
  predicate Word(s: string) {
    s != "" && forall c <- s :: c > ' ' && c != ';' && c != ','
  }

  predicate WellFormed(d: Directive) {
    Word(d.name) && forall s <- d.sources :: Word(s)
  }

  lemma {:induction false} JoinFree(parts: seq<string>, sep: string, c: char)
    requires c !in sep && forall p <- parts :: c !in p
    ensures c !in Join(parts, sep)
  {
    if |parts| > 1 { JoinFree(parts[1..], sep, c); }
  }

  lemma DirectiveReads(d: Directive)
    requires WellFormed(d)
    ensures ReadDirective(Text(d)) == d && ReadDirective(" " + Text(d)) == d
    ensures ';' !in Text(d) && ',' !in Text(d) && '\0' !in Text(d)
  {
    var words := [d.name] + d.sources;
    assert forall w <- words :: Word(w);
    SplitJoin(words, ' ');
    JoinFree(words, " ", ';');
    JoinFree(words, " ", ',');
    JoinFree(words, " ", '\0');
    assert Text(d)[0] == d.name[0];
    assert DropSpaces(Text(d)) == Text(d) && (" " + Text(d))[1..] == Text(d);
  }

  function Spaced(parts: seq<string>): seq<string> {
    seq(|parts|, i requires 0 <= i < |parts| => " " + parts[i])
  }

  lemma {:induction false} JoinSpaced(parts: seq<string>)
    requires parts != []
    ensures " " + Join(parts, "; ") == Join(Spaced(parts), ";")
  {
    if |parts| > 1 {
      JoinSpaced(parts[1..]);
      assert Spaced(parts)[1..] == Spaced(parts[1..]);
      assert " " + (parts[0] + "; " + Join(parts[1..], "; ")) == " " + parts[0] + ";" + (" " + Join(parts[1..], "; "));
    }
  }

  lemma SplitPolicy(parts: seq<string>)
    requires parts != [] && forall p <- parts :: ';' !in p
    ensures Split(Join(parts, "; "), ';') == [parts[0]] + Spaced(parts[1..])
  {
    var text := Join(parts, "; ");
    JoinSpaced(parts);
    assert forall p <- Spaced(parts) :: ';' !in p;
    SplitJoin(Spaced(parts), ';');
    assert (" " + text)[1..] == text;
    var pieces := Split(text, ';');
    assert Split(" " + text, ';') == [" " + pieces[0]] + pieces[1..];
    assert Spaced(parts)[1..] == Spaced(parts[1..]);
    assert (" " + pieces[0])[1..] == (" " + parts[0])[1..];
    assert pieces[1..] == Spaced(parts)[1..];
  }

  /** A policy of well-formed directives reads back as those directives, and is a single policy. */
  lemma PolicyReads(ds: seq<Directive>)
    requires ds != [] && forall d <- ds :: WellFormed(d)
    ensures Parse(Policy(ds)) == ds && ',' !in Policy(ds) && '\0' !in Policy(ds)
  {
    forall d | d in ds ensures ReadDirective(Text(d)) == d && ReadDirective(" " + Text(d)) == d
      && ';' !in Text(d) && ',' !in Text(d) && '\0' !in Text(d) { DirectiveReads(d); }
    SplitPolicy(Texts(ds));
    JoinFree(Texts(ds), "; ", ',');
    JoinFree(Texts(ds), "; ", '\0');
  }

  lemma FixedWords()
    ensures Word("default-src") && Word("script-src") && Word("style-src") && Word("img-src") && Word("font-src")
    ensures Word("connect-src") && Word("frame-ancestors") && Word("form-action") &&
            Word("base-uri") && Word("object-src")
    ensures Word("upgrade-insecure-requests") && Word("report-uri")
    ensures Word("'self'") && Word("'unsafe-inline'") && Word("'none'") && Word("data:") && Word("blob:")
  {
    FetchNames();
    DocumentNames();
    SourceWords();
  }

  lemma FetchNames()
    ensures Word("default-src") && Word("script-src") && Word("style-src") && Word("img-src") &&
            Word("font-src") && Word("connect-src")
  {}

  lemma DocumentNames()
    ensures Word("frame-ancestors") && Word("form-action") && Word("base-uri") &&
            Word("object-src") && Word("report-uri")
  {}

  lemma SourceWords()
    ensures Word("upgrade-insecure-requests")
    ensures Word("'self'") && Word("'unsafe-inline'") && Word("'none'") && Word("data:") && Word("blob:")
  {}

  lemma OriginsAreWords(origins: seq<string>)
    ensures forall s <- Sanitised(origins) :: Word(s)
  {
    SanitisedAre(origins);
    assert forall s: string :: Clean(s) ==> Word(s);
  }

  lemma ListWellFormed(name: string, fixed: seq<string>, origins: seq<string>)
    requires Word(name) && forall s <- fixed :: Word(s)
    ensures WellFormed(Directive(name, fixed + Sanitised(origins)))
  {
    OriginsAreWords(origins);
  }

  lemma CoreWellFormed(o: Options)
    ensures forall d <- Core(o) :: WellFormed(d)
  {
    FixedWords();
    ListWellFormed("img-src", ["'self'", "data:", "blob:"], o.imgExtra);
    ListWellFormed("connect-src", ["'self'"], o.connectExtra);
  }

  lemma OthersWellFormed(o: Options)
    ensures forall d <- Others(o) :: WellFormed(d)
  {
    FixedWords();
    CoreWellFormed(o);
    var uri := SanitisedUri(o.reportUri);
    assert uri != "" ==> Word(uri);
  }

  /**
    Whatever the options, the policy reads back as the intended directives: an operator's origins stand in their own
    directive only, and nothing in them starts another directive or another policy.
   */
  lemma PolicyMeans(o: Options, nonceSources: seq<string>)
    requires forall s <- nonceSources :: Word(s)
    ensures Parse(Policy(Intended(o, nonceSources))) == Intended(o, nonceSources)
    ensures Parse(Policy(Intended(o, nonceSources))) ==
      [ Directive("default-src", ["'self'"]),
        Directive("script-src", ["'self'"] + nonceSources),
        Directive("style-src", ["'self'", "'unsafe-inline'"]),
        Directive("img-src", ["'self'", "data:", "blob:"] + Sanitised(o.imgExtra)),
        Directive("font-src", ["'self'", "data:"]),
        Directive("connect-src", ["'self'"] + Sanitised(o.connectExtra)),
        Directive("frame-ancestors", ["'none'"]),
        Directive("form-action", ["'self'"]),
        Directive("base-uri", ["'self'"]),
        Directive("object-src", ["'none'"]) ]
      + (if o.disableHsts then [] else [Directive("upgrade-insecure-requests", [])])
      + (if SanitisedUri(o.reportUri) == "" then [] else [Directive("report-uri", [SanitisedUri(o.reportUri)])])
    ensures ',' !in Policy(Intended(o, nonceSources))
  {
    FixedWords();
    OthersWellFormed(o);
    PolicyReads(Intended(o, nonceSources));
  }

  // ---------------------------------------------------------------- the nonce

  predicate OccursAt(s: string, sub: string, i: nat) {
    i + |sub| <= |s| && s[i..i + |sub|] == sub
  }

  // The first place of `sub` in `s` from `from` on, or -1.
  function Index(s: string, sub: string, from: nat): (i: int)
    ensures i == -1 || (from <= i && OccursAt(s, sub, i))
    ensures forall k: nat :: from <= k && OccursAt(s, sub, k) ==> 0 <= i <= k
    decreases |s| - from
  {
    if OccursAt(s, sub, from) then from
    else if from >= |s| then -1
    else Index(s, sub, from + 1)
  }

  function ReplaceFirst(s: string, sub: string): string {
    var i := Index(s, sub, 0);
    if i < 0 then s else s[..i] + s[i + |sub|..]
  }

  function Prefix(): string {
    Text(DEFAULT_SRC) + "; " + "script-src 'self' 'nonce-"
  }

  function Suffix(o: Options): string {
    "'; " + Policy(Others(o))
  }

  // Every nonce stands at the same place, between the same texts.
  lemma NonceStands(o: Options, nonce: string)
    ensures Policy(Intended(o, [NonceSource(nonce)])) == Prefix() + nonce + Suffix(o)
  {
    var texts, rest := Texts(Intended(o, [NonceSource(nonce)])), Texts(Others(o));
    NonceText(nonce);
    assert texts[1..][1..] == rest &&
           texts[0] == Text(DEFAULT_SRC) && texts[1] == Text(ScriptSrc([NonceSource(nonce)]));
    assert Join(texts, "; ") == texts[0] + "; " + (texts[1] + "; " + Join(rest, "; "));
    assert texts[1] == "script-src 'self' 'nonce-" + nonce + "'";
    assert "'" + "; " == "'; ";
  }

  lemma NoNul(o: Options)
    ensures '\0' !in Prefix() && '\0' !in Suffix(o)
  {
    FixedWords();
    DirectiveReads(DEFAULT_SRC);
    OthersWellFormed(o);
    PolicyReads(Others(o));
  }

  lemma SentinelBetween(a: string, b: string, i: nat)
    requires '\0' !in a && '\0' !in b && OccursAt(a + NONCE_SENTINEL + b, NONCE_SENTINEL, i)
    ensures i == |a|
  {
    var s, n := a + NONCE_SENTINEL + b, |NONCE_SENTINEL|;
    assert s[i..i + n][0] == '\0' && s[i..i + n][n - 1] == '\0';
    assert s[i] == '\0' && s[i + n - 1] == '\0';
    assert forall k :: 0 <= k < |s| && s[k] == '\0' ==> k == |a| || k == |a| + n - 1;
  }

  lemma SentinelHasNul(s: string, i: nat)
    requires OccursAt(s, NONCE_SENTINEL, i)
    ensures '\0' in s
  {
    assert s[i..i + |NONCE_SENTINEL|][0] == s[i] == '\0';
  }

  /** The assembled policy holds the sentinel exactly once when nonces are on, and not at all when they are off. */
  lemma SentinelOnce(o: Options, i: nat)
    ensures OccursAt(Policy(Intended(o, Planted(o))), NONCE_SENTINEL, i) <==> o.nonce && i == |Prefix()|
  {
    var policy := Policy(Intended(o, Planted(o)));
    NoNul(o);
    if o.nonce {
      NonceStands(o, NONCE_SENTINEL);
      assert policy[|Prefix()|..|Prefix()| + |NONCE_SENTINEL|] == NONCE_SENTINEL;
      if OccursAt(policy, NONCE_SENTINEL, i) { SentinelBetween(Prefix(), Suffix(o), i); }
    } else {
      FixedWords();
      OthersWellFormed(o);
      PolicyReads(Intended(o, []));
      if OccursAt(policy, NONCE_SENTINEL, i) { SentinelHasNul(policy, i); }
    }
  }

  // The nonce source a response carries: `nonce` is None when no randomness could be had.
  function Carried(o: Options, nonce: Option<string>): seq<string> {
    if !o.nonce then [] else [NonceSource(match nonce case Some(n) => n case None => "")]
  }

  /** The header of a response: the policy split once at the sentinel, with this response's nonce in its place. */
  method CspHeader(o: Options, nonce: Option<string>) returns (header: string)
    ensures header == Policy(Intended(o, Carried(o, nonce)))
  {
    var csp := BuildCsp(o);
    SentinelOnce(o, |Prefix()|);
    var idx := Index(csp, NONCE_SENTINEL, 0);
    if o.nonce && idx >= 0 {
      SentinelOnce(o, idx);
      var prefix, suffix := csp[..idx], csp[idx + |NONCE_SENTINEL|..];
      NonceStands(o, NONCE_SENTINEL);
      assert prefix == Prefix() && suffix == Suffix(o);
      match nonce {
        case Some(n) =>
          NonceStands(o, n);
          header := prefix + n + suffix;
        case None =>
          NonceStands(o, "");
          header := prefix + suffix;
      }
    } else {
      NothingPlanted(o, csp);
      header := ReplaceFirst(csp, " " + NonceSource(NONCE_SENTINEL));
    }
  }

  lemma NothingPlanted(o: Options, csp: string)
    requires csp == Policy(Intended(o, Planted(o))) && !o.nonce
    ensures ReplaceFirst(csp, " " + NonceSource(NONCE_SENTINEL)) == csp
  {
    var source := " " + NonceSource(NONCE_SENTINEL);
    var at := Index(csp, source, 0);
    if at >= 0 {
      var n := |" 'nonce-"|;
      assert source[n..n + |NONCE_SENTINEL|] == NONCE_SENTINEL;
      SliceOfSlice(csp, at, |source|, n, |NONCE_SENTINEL|);
      SentinelOnce(o, at + n);
    }
  }

  lemma SliceOfSlice(s: string, i: nat, m: nat, j: nat, n: nat)
    requires i + m <= |s| && j + n <= m
    ensures s[i..i + m][j..j + n] == s[i + j..i + j + n]
  {
    var a, b := s[i..i + m][j..j + n], s[i + j..i + j + n];
    assert |a| == |b| == n && forall k :: 0 <= k < n ==> a[k] == b[k];
  }

  // The alphabet of a nonce.
  predicate IsBase64(s: string) {
    forall c <- s :: 'A' <= c <= 'Z' || 'a' <= c <= 'z' || '0' <= c <= '9' || c == '+' || c == '/' || c == '='
  }

  /**
    Every response's header reads as the intended directives, with script-src naming this response's nonce, an empty
    nonce that matches nothing if randomness failed, or none if nonces are off.
   */
  lemma HeaderMeans(o: Options, nonce: Option<string>)
    requires nonce.Some? ==> IsBase64(nonce.value)
    ensures Parse(Policy(Intended(o, Carried(o, nonce)))) == Intended(o, Carried(o, nonce))
    ensures Carried(o, nonce) ==
      if !o.nonce then [] else ["'nonce-" + (match nonce case Some(n) => n case None => "") + "'"]
    ensures ',' !in Policy(Intended(o, Carried(o, nonce)))
  {
    PolicyMeans(o, Carried(o, nonce));
  }
}
