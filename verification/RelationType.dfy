/**
 The normal form of a user-defined relation type: the replace chain of the editor
 equals upper-casing and joining the maximal runs of A-Z and 0-9 by underscores.

 `up` is the upper-casing of one character. Only what the chain relies on is
 required of it; other letters may map to anything, to several letters as well.
 */
module RelationType {
  import opened Options

  predicate IsSpace(c: char) {
    || c == ' ' || '\t' <= c <= '\r' || c == '\U{A0}' || c == '\U{1680}' || '\U{2000}' <= c <= '\U{200A}'
    || c == '\U{2028}' || c == '\U{2029}' || c == '\U{202F}' || c == '\U{205F}' || c == '\U{3000}' || c == '\U{FEFF}'
  }

  predicate IsAlnum(c: char) { 'A' <= c <= 'Z' || '0' <= c <= '9' }

  predicate IsDash(c: char) { IsSpace(c) || c == '-' }

  predicate IsUnderscore(c: char) { c == '_' }

  /** Capitals, digits, underscores and white space have no other upper case. */
  ghost predicate UpperCasing(up: char -> string) {
    forall c :: IsAlnum(c) || c == '_' || IsSpace(c) ==> up(c) == [c]
  }

  // ---- the replace chain ----

  function SkipLeading(p: char -> bool, s: string): (r: string)
    ensures |r| <= |s|
  {
    if s != "" && p(s[0]) then SkipLeading(p, s[1..]) else s
  }

  function SkipTrailing(p: char -> bool, s: string): string {
    if s != "" && p(s[|s| - 1]) then SkipTrailing(p, s[..|s| - 1]) else s
  }

  function StripEnds(p: char -> bool, s: string): string { SkipTrailing(p, SkipLeading(p, s)) }

  function Trim(s: string): string { StripEnds(IsSpace, s) }

  function Upper(up: char -> string, s: string): string {
    if s == "" then "" else up(s[0]) + Upper(up, s[1..])
  }

  /** Every run of such characters becomes one underscore. */
  function ReplaceRuns(p: char -> bool, s: string): string
    decreases |s|
  {
    if s == "" then ""
    else if p(s[0]) then "_" + ReplaceRuns(p, SkipLeading(p, s[1..]))
    else [s[0]] + ReplaceRuns(p, s[1..])
  }

  function ReplaceOthers(s: string): string {
    if s == "" then "" else [if IsAlnum(s[0]) || s[0] == '_' then s[0] else '_'] + ReplaceOthers(s[1..])
  }

  function Chain(up: char -> string, input: string): string {
    StripEnds(IsUnderscore, ReplaceRuns(IsUnderscore, ReplaceOthers(ReplaceRuns(IsDash, Upper(up, Trim(input))))))
  }

  const RESERVED_RELATION_TYPES: set<string> := {
    "BELONGS_TO", "HAS_SUBCLUSTER", "CONTAINS", "REPRESENTS",
    "RELATES_SOURCE", "RELATES_TARGET", "MACRO_RELATED",
    "HAS_NODE", "HAS_CLUSTER", "HAS_RELATION", "HAS_STATS",
    "HAS_SUMMARY" }

  function Normalize(up: char -> string, input: string): Option<string> {
    var normalized := Chain(up, input);
    if normalized == "" || normalized in RESERVED_RELATION_TYPES then None else Some(normalized)
  }

  // ---- the specification ----

  /** The length of the run of capitals and digits the string starts with. */
  function RunLength(s: string): (n: nat)
    ensures n <= |s|
  {
    if s != "" && IsAlnum(s[0]) then 1 + RunLength(s[1..]) else 0
  }

  /** The maximal runs of capitals and digits, in order. */
  function Words(s: string): seq<string>
    decreases |s|
  {
    if s == "" then []
    else if IsAlnum(s[0]) then [s[..RunLength(s)]] + Words(s[RunLength(s)..])
    else Words(s[1..])
  }

  function Join(words: seq<string>): string {
    if words == [] then ""
    else if |words| == 1 then words[0]
    else words[0] + "_" + Join(words[1..])
  }

  // ---- scanning one character at a time ----

  function Flush(word: string): seq<string> { if word == "" then [] else [word] }

  /** The words of a string whose first word has already begun with `word`. */
  function Scan(word: string, s: string): seq<string>
    decreases |s|
  {
    if s == "" then Flush(word)
    else if IsAlnum(s[0]) then Scan(word + [s[0]], s[1..])
    else Flush(word) + Scan("", s[1..])
  }

  lemma {:induction false} ScanRun(word: string, s: string)
    ensures Scan(word, s) == Scan(word + s[..RunLength(s)], s[RunLength(s)..])
    ensures RunLength(s) < |s| ==> !IsAlnum(s[RunLength(s)])
    decreases |s|
  {
    if s != "" && IsAlnum(s[0]) {
      ScanRun(word + [s[0]], s[1..]);
      var n := RunLength(s[1..]);
      assert word + [s[0]] + s[1..][..n] == word + s[..n + 1];
      assert s[1..][n..] == s[n + 1..];
    } else {
      assert word + s[..0] == word && s[0..] == s;
    }
  }

  lemma {:induction false} ScanIsWords(s: string)
    ensures Scan("", s) == Words(s)
    decreases |s|
  {
    if s != "" {
      if IsAlnum(s[0]) {
        var n := RunLength(s);
        ScanRun("", s);
        assert "" + s[..n] == s[..n] && s[..n] != "";
        ScanIsWords(s[n..]);
        assert Scan(s[..n], s[n..]) == [s[..n]] + Scan("", s[n..]);
      } else {
        ScanIsWords(s[1..]);
      }
    }
  }

  // ---- every pass keeps the words ----

  ghost predicate NoAlnum(s: string) { forall c <- s :: !IsAlnum(c) }

  lemma {:induction false} ScanSkips(p: char -> bool, s: string)
    requires forall c :: p(c) ==> !IsAlnum(c)
    ensures Scan("", SkipLeading(p, s)) == Scan("", s)
  {
    if s != "" && p(s[0]) {
      ScanSkips(p, s[1..]);
    }
  }

  lemma {:induction false} ReplaceRunsKeepsWords(p: char -> bool, word: string, s: string)
    requires forall c :: p(c) ==> !IsAlnum(c)
    ensures Scan(word, ReplaceRuns(p, s)) == Scan(word, s)
    decreases |s|
  {
    if s != "" {
      if p(s[0]) {
        ReplaceRunsKeepsWords(p, "", SkipLeading(p, s[1..]));
        ScanSkips(p, s[1..]);
      } else {
        ReplaceRunsKeepsWords(p, word + [s[0]], s[1..]);
        ReplaceRunsKeepsWords(p, "", s[1..]);
      }
    }
  }

  lemma {:induction false} ReplaceOthersKeepsWords(word: string, s: string)
    ensures Scan(word, ReplaceOthers(s)) == Scan(word, s)
    decreases |s|
  {
    if s != "" {
      ReplaceOthersKeepsWords(word + [s[0]], s[1..]);
      ReplaceOthersKeepsWords("", s[1..]);
      assert ReplaceOthers(s)[1..] == ReplaceOthers(s[1..]);
    }
  }

  lemma {:induction false} ScanPadded(word: string, s: string, pad: string)
    requires NoAlnum(pad)
    ensures Scan(word, s + pad) == Scan(word, s)
    decreases |s| + |pad|
  {
    if s != "" {
      assert (s + pad)[1..] == s[1..] + pad;
      ScanPadded(word + [s[0]], s[1..], pad);
      ScanPadded("", s[1..], pad);
    } else if pad != "" {
      assert s + pad == pad && "" + pad[1..] == pad[1..];
      ScanPadded("", "", pad[1..]);
    } else {
      assert s + pad == s;
    }
  }

  /** Stripping removes such characters at both ends, and leaves none there. */
  lemma {:induction false} StripEndsSplits(p: char -> bool, s: string) returns (a: string, b: string)
    ensures s == a + StripEnds(p, s) + b
    ensures (forall c <- a :: p(c)) && (forall c <- b :: p(c))
    ensures var r := StripEnds(p, s); r != "" ==> !p(r[0]) && !p(r[|r| - 1])
  {
    a := SkipLeadingSplits(p, s);
    b := SkipTrailingSplits(p, SkipLeading(p, s));
  }

  /** Trimming takes white space off both ends, and all of it: there is one such core of a string. */
  lemma TrimIs(s: string, a: string, t: string, b: string)
    requires s == a + t + b && (forall c <- a :: IsSpace(c)) && (forall c <- b :: IsSpace(c))
    requires t != "" ==> !IsSpace(t[0]) && !IsSpace(t[|t| - 1])
    ensures Trim(s) == t
  {
    var a', b' := StripEndsSplits(IsSpace, s);
    var t' := Trim(s);
    OnlyCoreIsNotSpace(s, a, t, b);
    OnlyCoreIsNotSpace(s, a', t', b');
    if t != "" && t' != "" {
      SameCore(|a|, |t|, |a'|, |t'|, s);
    }
    assert t == s[|a|..|a| + |t|] && t' == s[|a'|..|a'| + |t'|];
  }

  lemma OnlyCoreIsNotSpace(s: string, a: string, t: string, b: string)
    requires s == a + t + b && (forall c <- a :: IsSpace(c)) && (forall c <- b :: IsSpace(c))
    ensures forall i | 0 <= i < |s| && !(|a| <= i < |a| + |t|) :: IsSpace(s[i])
    ensures t != "" ==> s[|a|] == t[0] && s[|a| + |t| - 1] == t[|t| - 1]
  {
    forall i | 0 <= i < |s| && !(|a| <= i < |a| + |t|) ensures IsSpace(s[i]) {
      assert s[i] == if i < |a| then a[i] else b[i - |a| - |t|];
    }
  }

  lemma SameCore(a: nat, t: nat, a': nat, t': nat, s: string)
    requires 0 < t && 0 < t' && a + t <= |s| && a' + t' <= |s|
    requires !IsSpace(s[a]) && !IsSpace(s[a + t - 1]) && !IsSpace(s[a']) && !IsSpace(s[a' + t' - 1])
    requires forall i | 0 <= i < |s| && (i < a || i >= a + t || i < a' || i >= a' + t') :: IsSpace(s[i])
    ensures a == a' && t == t'
  {
  }

  lemma {:induction false} SkipLeadingSplits(p: char -> bool, s: string) returns (a: string)
    ensures s == a + SkipLeading(p, s) && forall c <- a :: p(c)
    ensures var r := SkipLeading(p, s); r != "" ==> !p(r[0])
  {
    a := "";
    if s != "" && p(s[0]) {
      a := SkipLeadingSplits(p, s[1..]);
      a := [s[0]] + a;
    }
  }

  lemma {:induction false} SkipTrailingSplits(p: char -> bool, s: string) returns (b: string)
    ensures s == SkipTrailing(p, s) + b && forall c <- b :: p(c)
    ensures var r := SkipTrailing(p, s); r != "" ==> r[0] == s[0] && !p(r[|r| - 1])
  {
    b := "";
    if s != "" && p(s[|s| - 1]) {
      b := SkipTrailingSplits(p, s[..|s| - 1]);
      b := b + [s[|s| - 1]];
    }
  }

  lemma {:induction false} ScanAfter(pad: string, s: string)
    requires NoAlnum(pad)
    ensures Scan("", pad + s) == Scan("", s)
  {
    if pad == "" {
      assert pad + s == s;
    } else {
      assert (pad + s)[1..] == pad[1..] + s;
      ScanAfter(pad[1..], s);
    }
  }

  lemma ScanBetween(a: string, s: string, b: string)
    requires NoAlnum(a) && NoAlnum(b)
    ensures Scan("", a + s + b) == Scan("", s)
  {
    assert a + s + b == a + (s + b);
    ScanAfter(a, s + b);
    ScanPadded("", s, b);
  }

  lemma StripEndsKeepsWords(s: string)
    ensures Scan("", StripEnds(IsUnderscore, s)) == Scan("", s)
  {
    var a, b := StripEndsSplits(IsUnderscore, s);
    ScanBetween(a, StripEnds(IsUnderscore, s), b);
  }

  lemma {:induction false} UpperConcat(up: char -> string, a: string, b: string)
    ensures Upper(up, a + b) == Upper(up, a) + Upper(up, b)
  {
    if a == "" {
      assert a + b == b;
    } else {
      assert (a + b)[1..] == a[1..] + b;
      UpperConcat(up, a[1..], b);
    }
  }

  lemma {:induction false} UpperFixes(up: char -> string, s: string)
    requires forall c <- s :: up(c) == [c]
    ensures Upper(up, s) == s
  {
    if s != "" {
      UpperFixes(up, s[1..]);
    }
  }

  lemma TrimKeepsWords(up: char -> string, s: string)
    requires UpperCasing(up)
    ensures Scan("", Upper(up, StripEnds(IsSpace, s))) == Scan("", Upper(up, s))
  {
    var t := StripEnds(IsSpace, s);
    var a, b := StripEndsSplits(IsSpace, s);
    UpperConcat(up, a + t, b);
    UpperConcat(up, a, t);
    SpacesStay(up, a);
    SpacesStay(up, b);
    ScanBetween(a, Upper(up, t), b);
  }

  lemma SpacesStay(up: char -> string, s: string)
    requires UpperCasing(up) && forall c <- s :: IsSpace(c)
    ensures Upper(up, s) == s && NoAlnum(s)
  {
    UpperFixes(up, s);
  }

  // ---- the result is canonical, and canonical strings are their joined words ----

  predicate NameChars(s: string) { forall c <- s :: IsAlnum(c) || c == '_' }

  predicate NoDouble(s: string) { forall i | 0 <= i < |s| - 1 :: !(s[i] == '_' && s[i + 1] == '_') }

  /** Capitals, digits and single underscores between them. */
  predicate Canonical(s: string) {
    NameChars(s) && NoDouble(s) && (s != "" ==> s[0] != '_' && s[|s| - 1] != '_')
  }

  lemma {:induction false} JoinOfScan(word: string, s: string)
    requires NameChars(s) && NoDouble(s) && (s != "" ==> s[|s| - 1] != '_')
    requires word == "" && s != "" ==> s[0] != '_'
    ensures Join(Scan(word, s)) == word + s
    ensures word + s != "" ==> Scan(word, s) != []
    decreases |s|
  {
    if s == "" {
      assert word + s == word;
    } else if IsAlnum(s[0]) {
      JoinOfScan(word + [s[0]], s[1..]);
      assert word + [s[0]] + s[1..] == word + s;
    } else {
      assert s[1] != '_';
      JoinOfScan("", s[1..]);
      assert word + "_" + ("" + s[1..]) == word + s;
    }
  }

  lemma CanonicalIsJoined(s: string)
    requires Canonical(s)
    ensures s == Join(Words(s))
  {
    JoinOfScan("", s);
    ScanIsWords(s);
    assert "" + s == s;
  }

  lemma {:induction false} OthersReplaced(s: string)
    ensures NameChars(ReplaceOthers(s))
  {
    if s != "" {
      OthersReplaced(s[1..]);
    }
  }

  lemma {:induction false} RunsReplaced(s: string)
    requires NameChars(s)
    ensures var r := ReplaceRuns(IsUnderscore, s);
            NameChars(r) && NoDouble(r) && (r != "" && s != "" && s[0] != '_' ==> r[0] != '_')
    decreases |s|
  {
    if s != "" {
      var rest := if s[0] == '_' then SkipLeading(IsUnderscore, s[1..]) else s[1..];
      var a := SkipLeadingSplits(IsUnderscore, s[1..]);
      assert forall c <- rest :: c in s[1..];
      RunsReplaced(rest);
    }
  }

  lemma ChainIsCanonical(up: char -> string, input: string)
    ensures Canonical(Chain(up, input))
  {
    var others := ReplaceOthers(ReplaceRuns(IsDash, Upper(up, Trim(input))));
    var runs := ReplaceRuns(IsUnderscore, others);
    OthersReplaced(ReplaceRuns(IsDash, Upper(up, Trim(input))));
    RunsReplaced(others);
    var a, b := StripEndsSplits(IsUnderscore, runs);
    var r := Chain(up, input);
    assert forall i | 0 <= i < |r| :: r[i] == runs[|a| + i];
  }

  /** The whole chain is one sentence: upper-case, take the words, join them. */
  lemma ChainIsJoinedWords(up: char -> string, input: string)
    requires UpperCasing(up)
    ensures Chain(up, input) == Join(Words(Upper(up, input)))
  {
    var upper := Upper(up, Trim(input));
    var dashed := ReplaceRuns(IsDash, upper);
    TrimKeepsWords(up, input);
    ReplaceRunsKeepsWords(IsDash, "", upper);
    ReplaceOthersKeepsWords("", dashed);
    ReplaceRunsKeepsWords(IsUnderscore, "", ReplaceOthers(dashed));
    StripEndsKeepsWords(ReplaceRuns(IsUnderscore, ReplaceOthers(dashed)));
    ChainIsCanonical(up, input);
    CanonicalIsJoined(Chain(up, input));
    ScanIsWords(Chain(up, input));
    ScanIsWords(Upper(up, input));
  }

  lemma {:induction false} WordsAreNonEmpty(s: string)
    ensures forall w <- Words(s) :: w != ""
    decreases |s|
  {
    if s != "" {
      if IsAlnum(s[0]) {
        WordsAreNonEmpty(s[RunLength(s)..]);
      } else {
        WordsAreNonEmpty(s[1..]);
      }
    }
  }

  /** A name is accepted exactly when it has a word and the joined words are not reserved. */
  lemma AcceptedIff(up: char -> string, input: string)
    requires UpperCasing(up)
    ensures var words := Words(Upper(up, input));
            Normalize(up, input) ==
            if words != [] && Join(words) !in RESERVED_RELATION_TYPES then Some(Join(words)) else None
  {
    ChainIsJoinedWords(up, input);
    WordsAreNonEmpty(Upper(up, input));
    var words := Words(Upper(up, input));
    assert words != [] ==> words[0] in words;
  }

  /** An accepted name is canonical, not reserved, and normalising it again changes nothing. */
  lemma AcceptedIsFixed(up: char -> string, input: string)
    requires UpperCasing(up) && Normalize(up, input).Some?
    ensures var r := Normalize(up, input).value;
            Canonical(r) && r !in RESERVED_RELATION_TYPES && Normalize(up, r) == Some(r)
  {
    var r := Normalize(up, input).value;
    ChainIsCanonical(up, input);
    UpperFixes(up, r);
    ChainIsJoinedWords(up, r);
    CanonicalIsJoined(r);
  }
}
