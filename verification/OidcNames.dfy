/** From an OIDC username to a Kubernetes resource name: strip the provider prefix, then a
    chain of string passes that must end in a label in the sense of section 2.1 of RFC 1123. */
module OidcNames {

  // ---------------------------------------------------------------- the provider prefix

  /** Splitting at colons; always at least one part. */
  function Split(s: string): (parts: seq<string>)
    ensures parts != []
  {
    if s == [] then [""]
    else if s[0] == ':' then [""] + Split(s[1..])
    else var rest := Split(s[1..]); [[s[0]] + rest[0]] + rest[1..]
  }

  function Join(parts: seq<string>): string
    requires parts != []
  {
    if |parts| == 1 then parts[0] else parts[0] + ":" + Join(parts[1..])
  }

  lemma {:induction false} JoinSplit(s: string)
    ensures Join(Split(s)) == s
    ensures forall i :: 0 <= i < |Split(s)| ==> ':' !in Split(s)[i]
  {
    if s != [] {
      JoinSplit(s[1..]);
      var rest := Split(s[1..]);
      if s[0] == ':' {
        var parts := [""] + rest;
        assert parts[1..] == rest;
        assert Split(s) == parts && Join(parts) == "" + ":" + Join(rest);
      } else {
        var parts := [[s[0]] + rest[0]] + rest[1..];
        assert parts[1..] == rest[1..] && Split(s) == parts;
        assert Join(parts) == [s[0]] + Join(rest);
      }
      assert s == [s[0]] + s[1..];
    }
  }

  lemma {:induction false} SplitWithoutColon(s: string)
    requires ':' !in s
    ensures Split(s) == [s]
  {
    if s != [] {
      SplitWithoutColon(s[1..]);
      assert s == [s[0]] + s[1..];
    }
  }

  predicate IsServiceAccount(parts: seq<string>) {
    |parts| >= 5 && parts[1] == "system" && parts[2] == "serviceaccount"
  }

  function StripPrefix(username: string): string {
    var parts := Split(username);
    if |parts| == 1 then username
    else if IsServiceAccount(parts) then parts[3] + ":" + parts[4]
    else Join(parts[1..])
  }

  /** A name without a provider is left alone. */
  lemma StripPrefixSpec(username: string)
    requires ':' !in username
    ensures StripPrefix(username) == username
  {
    SplitWithoutColon(username);
  }

  /** What follows the provider names a service account: its namespace and name, and perhaps more
      after another colon. */
  predicate Account(rest: string, ns: string, name: string, tail: string) {
    && ':' !in ns && ':' !in name && (tail == "" || tail[0] == ':')
    && rest == "system:serviceaccount:" + (ns + ":" + (name + tail))
  }

  lemma {:induction false} SplitHead(a: string, b: string)
    requires ':' !in a
    ensures Split(a + (":" + b)) == [a] + Split(b)
  {
    var s := a + (":" + b);
    if a == [] {
      assert s[0] == ':' && s[1..] == b;
    } else {
      SplitHead(a[1..], b);
      assert s[0] == a[0] && s[1..] == a[1..] + (":" + b);
      assert Split(s[1..]) == [a[1..]] + Split(b) && ([a[1..]] + Split(b))[1..] == Split(b);
      assert a == [a[0]] + a[1..];
    }
  }

  lemma SplitAccount(rest: string, ns: string, name: string, tail: string)
    requires Account(rest, ns, name, tail)
    ensures var parts := Split(rest);
            |parts| >= 4 && parts[0] == "system" && parts[1] == "serviceaccount" && parts[2] == ns && parts[3] == name
  {
    var r3 := name + tail;
    var r2 := ns + (":" + r3);
    var r1 := "serviceaccount" + (":" + r2);
    assert rest == "system" + (":" + r1) && ns + ":" + r3 == r2;
    SplitHead("system", r1);
    SplitHead("serviceaccount", r2);
    SplitHead(ns, r3);
    SplitName(name, tail);
  }

  lemma SplitName(name: string, tail: string)
    requires ':' !in name && (tail == "" || tail[0] == ':')
    ensures Split(name + tail)[0] == name
  {
    if tail == "" {
      assert name + tail == name;
      SplitWithoutColon(name);
    } else {
      assert tail == ":" + tail[1..];
      SplitHead(name, tail[1..]);
    }
  }

  lemma AccountOfParts(rest: string) returns (ns: string, name: string, tail: string)
    requires |Split(rest)| >= 4 && Split(rest)[0] == "system" && Split(rest)[1] == "serviceaccount"
    ensures Account(rest, ns, name, tail)
  {
    JoinSplit(rest);
    var p0 := Split(rest);
    hide Split;
    var p1, p2, p3, p4 := p0[1..], p0[2..], p0[3..], p0[4..];
    assert p0[1..] == p1 && p1[1..] == p2 && p2[1..] == p3 && p3[1..] == p4;
    ns, name := p0[2], p0[3];
    tail := if p4 == [] then "" else ":" + Join(p4);
    assert Join(p3) == name + tail;
    assert Join(p2) == ns + ":" + Join(p3);
    assert Join(p1) == "serviceaccount" + ":" + Join(p2);
    assert Join(p0) == "system" + ":" + Join(p1);
    assert ns + ":" + (name + tail) == Join(p2);
    assert "system" + ":" + ("serviceaccount" + ":" + Join(p2)) == "system:serviceaccount:" + Join(p2);
  }

  /** With a provider: a service account, and nothing else, is cut down to its namespace and name;
      of any other name exactly the provider and its colon go. */
  lemma StripProvider(provider: string, rest: string)
    requires ':' !in provider
    ensures forall ns, name, tail :: Account(rest, ns, name, tail) ==>
              StripPrefix(provider + (":" + rest)) == ns + ":" + name
    ensures (forall ns, name, tail :: !Account(rest, ns, name, tail)) ==> StripPrefix(provider + (":" + rest)) == rest
  {
    var username := provider + (":" + rest);
    SplitHead(provider, rest);
    var parts := Split(username);
    assert parts[1..] == Split(rest);
    forall ns, name, tail | Account(rest, ns, name, tail) ensures StripPrefix(username) == ns + ":" + name {
      SplitAccount(rest, ns, name, tail);
    }
    if forall ns, name, tail :: !Account(rest, ns, name, tail) {
      if IsServiceAccount(parts) {
        var ns, name, tail := AccountOfParts(rest);
        assert false;
      }
      JoinSplit(rest);
    }
  }

  /** Hence two service accounts are told apart by the stripped name. */
  lemma AccountsStayApart(p: string, rest: string, ns: string, name: string, tail: string, p': string, rest': string, ns': string, name': string, tail': string)
    requires ':' !in p && ':' !in p' && Account(rest, ns, name, tail) && Account(rest', ns', name', tail')
    requires StripPrefix(p + (":" + rest)) == StripPrefix(p' + (":" + rest'))
    ensures ns == ns' && name == name'
  {
    StripProvider(p, rest);
    StripProvider(p', rest');
    assert ns + ":" + name == ns + (":" + name) && ns' + ":" + name' == ns' + (":" + name');
    SplitHead(ns, name);
    SplitHead(ns', name');
    SplitWithoutColon(name);
    SplitWithoutColon(name');
    assert [ns] + [name] == [ns'] + [name'];
    assert ([ns] + [name])[0] == ns && ([ns] + [name])[1] == name;
  }

  // ---------------------------------------------------------------- the passes

  predicate AlphaNumeric(c: char) { 'a' <= c <= 'z' || '0' <= c <= '9' }

  predicate LabelChar(c: char) { AlphaNumeric(c) || c == '-' }

  /** All that is asked of the Unicode lower-casing: what it does to ASCII, and that it never
      produces an ASCII capital. */
  ghost predicate Lowering(lower: char -> char) {
    && (forall c :: LabelChar(c) ==> lower(c) == c)
    && (forall c :: !('A' <= lower(c) <= 'Z'))
  }

  function ToLower(s: string, lower: char -> char): string { seq(|s|, i requires 0 <= i < |s| => lower(s[i])) }

  predicate Permitted(c: char) { LabelChar(c) || 'A' <= c <= 'Z' }

  function ReplaceInvalid(s: string): string { seq(|s|, i requires 0 <= i < |s| => if Permitted(s[i]) then s[i] else '-') }

  function Collapse(s: string): string {
    if |s| < 2 then s
    else if s[0] == '-' && s[1] == '-' then Collapse(s[1..])
    else [s[0]] + Collapse(s[1..])
  }

  function TrimLeft(s: string): string { if s != [] && s[0] == '-' then s[1..] else s }

  function TrimRight(s: string): string { if s != [] && s[|s| - 1] == '-' then s[..|s| - 1] else s }

  /** One hyphen off either end, as one left-to-right replacement does it. */
  function Trim(s: string): string { TrimRight(TrimLeft(s)) }

  const MAX_LABEL := 63

  function Sanitized(username: string, lower: char -> char): string {
    Trim(Collapse(ReplaceInvalid(ToLower(StripPrefix(username), lower))))
  }

  function Normalize(username: string, lower: char -> char): string {
    var s := Sanitized(username, lower);
    if |s| > MAX_LABEL then Trim(s[..MAX_LABEL]) else s
  }

  // ---------------------------------------------------------------- an independent reading

  /** The maximal runs of letters and digits. */
  function Words(s: string): (ws: seq<string>)
    ensures s != [] && AlphaNumeric(s[0]) ==> ws != []
  {
    if s == [] then []
    else if !AlphaNumeric(s[0]) then Words(s[1..])
    else if |s| > 1 && AlphaNumeric(s[1]) then
      var rest := Words(s[1..]); [[s[0]] + rest[0]] + rest[1..]
    else [[s[0]]] + Words(s[1..])
  }

  function Hyphenated(ws: seq<string>): string {
    if ws == [] then "" else if |ws| == 1 then ws[0] else ws[0] + "-" + Hyphenated(ws[1..])
  }

  /** A valid label without adjacent hyphens, or nothing. */
  predicate Canonical(s: string) {
    s != [] ==>
      && |s| <= 63
      && (forall i :: 0 <= i < |s| ==> LabelChar(s[i]))
      && s[0] != '-' && s[|s| - 1] != '-'
      && NoDouble(s)
  }

  predicate OverLabelChars(s: string) { forall i :: 0 <= i < |s| ==> LabelChar(s[i]) }

  predicate DoubleAt(s: string, i: int)
    requires 0 <= i < |s| - 1
  {
    s[i] == '-' && s[i + 1] == '-'
  }

  predicate NoDouble(s: string) { forall i :: 0 <= i < |s| - 1 ==> !DoubleAt(s, i) }

  predicate WellEnded(s: string) { s != [] ==> s[0] != '-' && s[|s| - 1] != '-' }

  // ---------------------------------------------------------------- proofs

  lemma {:induction false} CollapseSpec(s: string)
    requires OverLabelChars(s)
    ensures OverLabelChars(Collapse(s)) && NoDouble(Collapse(s))
    ensures Collapse(s) == [] <==> s == []
    ensures s != [] ==> Collapse(s)[0] == s[0]
  {
    if |s| >= 2 {
      CollapseSpec(s[1..]);
      var c := Collapse(s[1..]);
      if !(s[0] == '-' && s[1] == '-') {
        var r := [s[0]] + c;
        assert Collapse(s) == r;
        forall i | 0 <= i < |r| - 1 ensures !DoubleAt(r, i) {
          if i > 0 { assert r[i] == c[i - 1] && r[i + 1] == c[i] && !DoubleAt(c, i - 1); }
        }
      }
    }
  }

  lemma {:induction false} CollapseFixed(s: string)
    requires NoDouble(s)
    ensures Collapse(s) == s
  {
    if |s| >= 2 {
      assert !DoubleAt(s, 0);
      forall i | 0 <= i < |s| - 2 ensures !DoubleAt(s[1..], i) { assert !DoubleAt(s, i + 1); }
      CollapseFixed(s[1..]);
      assert s == [s[0]] + s[1..];
    }
  }

  lemma TrimSpec(s: string)
    requires OverLabelChars(s) && NoDouble(s)
    ensures OverLabelChars(Trim(s)) && NoDouble(Trim(s)) && WellEnded(Trim(s)) && |Trim(s)| <= |s|
  {
    var l := TrimLeft(s);
    var k := |s| - |l|;
    forall i | 0 <= i < |l| - 1 ensures !DoubleAt(l, i) { assert !DoubleAt(s, i + k); }
    if |s| >= 2 { assert !DoubleAt(s, 0); }
    var t := TrimRight(l);
    forall i | 0 <= i < |t| - 1 ensures !DoubleAt(t, i) { assert !DoubleAt(l, i); }
    if |l| >= 2 { assert !DoubleAt(l, |l| - 2); }
  }

  lemma ReplaceInvalidSpec(s: string, lower: char -> char)
    requires Lowering(lower)
    ensures OverLabelChars(ReplaceInvalid(ToLower(s, lower)))
  {
  }

  lemma SanitizedSpec(username: string, lower: char -> char)
    requires Lowering(lower)
    ensures var s := Sanitized(username, lower); OverLabelChars(s) && NoDouble(s) && WellEnded(s)
  {
    ReplaceInvalidSpec(StripPrefix(username), lower);
    CollapseSpec(ReplaceInvalid(ToLower(StripPrefix(username), lower)));
    TrimSpec(Collapse(ReplaceInvalid(ToLower(StripPrefix(username), lower))));
  }

  /** For every username the normalised name is empty or a valid RFC 1123 label of at most 63
      characters without adjacent hyphens. */
  lemma NormalizedIsCanonical(username: string, lower: char -> char)
    requires Lowering(lower)
    ensures Canonical(Normalize(username, lower))
  {
    SanitizedSpec(username, lower);
    var s := Sanitized(username, lower);
    if |s| > MAX_LABEL {
      forall i | 0 <= i < MAX_LABEL - 1 ensures !DoubleAt(s[..MAX_LABEL], i) { assert !DoubleAt(s, i); }
      TrimSpec(s[..MAX_LABEL]);
    }
  }

  /** The canonical names are exactly the fixed points, so normalising twice is normalising
      once, and every canonical name is the name of some user. */
  lemma FixedPointsAreCanonical(s: string, lower: char -> char)
    requires Lowering(lower)
    ensures Normalize(s, lower) == s <==> Canonical(s)
  {
    NormalizedIsCanonical(s, lower);
    hide StripPrefix, ToLower, ReplaceInvalid, Collapse, Trim;
    if Canonical(s) { PassesKeepCanonical(s, lower); }
  }

  lemma PassesKeepCanonical(s: string, lower: char -> char)
    requires Lowering(lower) && Canonical(s)
    ensures StripPrefix(s) == s && ToLower(s, lower) == s && ReplaceInvalid(s) == s && Collapse(s) == s && Trim(s) == s
  {
    assert ':' !in s;
    StripPrefixSpec(s);
    CollapseFixed(s);
    CharactersKept(s, lower);
    hide StripPrefix, Collapse, ToLower, ReplaceInvalid, OverLabelChars, NoDouble, Lowering;
  }

  lemma CharactersKept(s: string, lower: char -> char)
    requires Lowering(lower) && OverLabelChars(s)
    ensures ToLower(s, lower) == s && ReplaceInvalid(s) == s
  {
    assert forall i :: 0 <= i < |s| ==> ToLower(s, lower)[i] == s[i];
    assert forall i :: 0 <= i < |s| ==> ReplaceInvalid(s)[i] == s[i];
  }

  lemma NormalizeIsIdempotent(username: string, lower: char -> char)
    requires Lowering(lower)
    ensures Normalize(Normalize(username, lower), lower) == Normalize(username, lower)
  {
    NormalizedIsCanonical(username, lower);
    FixedPointsAreCanonical(Normalize(username, lower), lower);
  }

  // What the passes compute, told by words.

  predicate WordList(ws: seq<string>) {
    forall i :: 0 <= i < |ws| ==> ws[i] != [] && forall j :: 0 <= j < |ws[i]| ==> AlphaNumeric(ws[i][j])
  }

  lemma {:induction false} WordsSpec(s: string)
    ensures WordList(Words(s))
    ensures s != [] && AlphaNumeric(s[0]) ==> Words(s)[0][0] == s[0]
  {
    if s != [] { WordsSpec(s[1..]); }
  }

  lemma {:induction false} HyphenatedEnds(ws: seq<string>)
    requires WordList(ws) && ws != []
    ensures Hyphenated(ws) != [] && WellEnded(Hyphenated(ws))
  {
    if |ws| > 1 {
      assert forall i :: 0 <= i < |ws| - 1 ==> ws[1..][i] == ws[i + 1];
      HyphenatedEnds(ws[1..]);
    } else {
      assert AlphaNumeric(ws[0][0]) && AlphaNumeric(ws[0][|ws[0]| - 1]);
    }
  }

  function Left(s: string): string { if s != [] && s[0] == '-' then "-" else "" }

  function Right(s: string): string { if s != [] && s[|s| - 1] == '-' && Words(s) != [] then "-" else "" }

  /** One more character in front, seen by the words and by the collapse. */
  lemma PrependHyphen(t: string)
    requires t != [] && OverLabelChars(t)
    ensures Words("-" + t) == Words(t) && Right("-" + t) == Right(t)
    ensures Collapse("-" + t) == if t[0] == '-' then Collapse(t) else "-" + Collapse(t)
  {
    var s := "-" + t;
    assert s[1..] == t && s[1] == t[0] && s[|s| - 1] == t[|t| - 1];
  }

  lemma PrependToHyphen(c: char, t: string)
    requires AlphaNumeric(c) && t != [] && t[0] == '-' && OverLabelChars(t)
    ensures var s := [c] + t;
            Words(s) == [[c]] + Words(t) && Collapse(s) == [c] + Collapse(t)
            && Right(s) == if t[|t| - 1] == '-' then "-" else ""
  {
    var s := [c] + t;
    assert s[1..] == t && s[1] == t[0] && s[|s| - 1] == t[|t| - 1];
  }

  lemma PrependToWord(c: char, t: string)
    requires AlphaNumeric(c) && t != [] && AlphaNumeric(t[0]) && OverLabelChars(t)
    ensures var s := [c] + t;
            Words(s) == [[c] + Words(t)[0]] + Words(t)[1..] && Collapse(s) == [c] + Collapse(t) && Right(s) == Right(t)
  {
    var s := [c] + t;
    assert s[1..] == t && s[1] == t[0] && s[|s| - 1] == t[|t| - 1];
  }

  lemma Regroup(x: string, h: string, r: string)
    ensures x + ("" + h + r) == x + h + r && "" + (x + h) + r == x + h + r && "" + h + "" == h
  {
    assert x + (h + r) == x + h + r;
    assert "" + h == h && "" + (x + h) == x + h;
  }

  lemma Tail(s: string)
    requires OverLabelChars(s) && |s| >= 2
    ensures OverLabelChars(s[1..]) && s == [s[0]] + s[1..]
    ensures s[1] != '-' ==> AlphaNumeric(s[1])
    ensures s[0] != '-' ==> AlphaNumeric(s[0])
  {
  }

  /** Collapsing leaves the words joined by single hyphens, with one hyphen more at an end where
      there were any. */
  lemma {:induction false} CollapseIsWords(s: string)
    requires OverLabelChars(s)
    ensures Collapse(s) == Left(s) + Hyphenated(Words(s)) + Right(s)
  {
    if |s| == 0 {
    } else if |s| == 1 {
      OneCharacter(s);
    } else {
      Tail(s);
      CollapseIsWords(s[1..]);
      hide *;
      CollapsePrepended(s[0], s[1..]);
    }
  }

  lemma OneCharacter(s: string)
    requires |s| == 1 && OverLabelChars(s)
    ensures Collapse(s) == Left(s) + Hyphenated(Words(s)) + Right(s)
  {
    assert LabelChar(s[0]) && s == [s[0]] && s[1..] == [];
    if s[0] == '-' { assert Words(s) == []; } else { assert Words(s) == [[s[0]]]; }
  }

  lemma CollapsePrepended(c: char, t: string)
    requires t != [] && OverLabelChars(t) && LabelChar(c)
    requires Collapse(t) == Left(t) + Hyphenated(Words(t)) + Right(t)
    ensures var s := [c] + t; Collapse(s) == Left(s) + Hyphenated(Words(s)) + Right(s)
  {
    hide Collapse, Words, Right, Hyphenated, OverLabelChars;
    var s, ws, h, r := [c] + t, Words(t), Hyphenated(Words(t)), Right(t);
    assert s[0] == c;
    if c == '-' {
      PrependHyphen(t);
      Regroup("-", h, r);
    } else {
      assert AlphaNumeric(c) && Left(s) == "";
      if t[0] == '-' {
        PrependToHyphen(c, t);
        JoinWord(c, t, ws);
        Regroup("", Hyphenated([[c]] + ws), Right(s));
      } else {
        FirstIsAlphaNumeric(t);
        PrependToWord(c, t);
        MergeWord(c, ws);
        Regroup([c], h, r);
      }
    }
  }

  lemma FirstIsAlphaNumeric(t: string)
    requires t != [] && OverLabelChars(t) && t[0] != '-'
    ensures AlphaNumeric(t[0]) && Words(t) != []
  {
  }

  lemma JoinWord(c: char, t: string, ws: seq<string>)
    requires ws == Words(t) && OverLabelChars(t) && t != [] && t[0] == '-'
    requires Collapse(t) == Left(t) + Hyphenated(ws) + Right(t)
    ensures [c] + Collapse(t) == Hyphenated([[c]] + ws) + (if t[|t| - 1] == '-' then "-" else "")
  {
    hide Collapse, OverLabelChars;
    var all := [[c]] + ws;
    if ws == [] {
      AllHyphens(t);
      hide Words;
      assert Hyphenated(all) == [c];
      assert Collapse(t) == "-";
    } else {
      var h, r := Hyphenated(ws), Right(t);
      JoinedWith(c, ws);
      assert r == if t[|t| - 1] == '-' then "-" else "";
      hide *;
      Regroup4(c, h, r);
    }
  }

  lemma Regroup4(c: char, h: string, r: string)
    ensures [c] + ("-" + h + r) == [c] + "-" + h + r
  {
    assert [c] + ("-" + h + r) == [c] + ("-" + (h + r));
  }

  lemma JoinedWith(c: char, ws: seq<string>)
    requires ws != []
    ensures Hyphenated([[c]] + ws) == [c] + "-" + Hyphenated(ws)
  {
    var all := [[c]] + ws;
    assert all[1..] == ws;
  }

  lemma MergeWord(c: char, ws: seq<string>)
    requires ws != []
    ensures Hyphenated([[c] + ws[0]] + ws[1..]) == [c] + Hyphenated(ws)
  {
    var merged := [[c] + ws[0]] + ws[1..];
    assert merged[1..] == ws[1..];
  }

  lemma {:induction false} AllHyphens(s: string)
    requires OverLabelChars(s) && Words(s) == []
    ensures forall i :: 0 <= i < |s| ==> s[i] == '-'
  {
    if s != [] {
      AllHyphens(s[1..]);
      assert forall i :: 1 <= i < |s| ==> s[i] == s[1..][i - 1];
    }
  }

  /** Trimming takes off exactly the hyphens collapsing left at the ends. */
  lemma TrimIsWords(m: string)
    requires OverLabelChars(m)
    ensures Trim(Collapse(m)) == Hyphenated(Words(m))
    ensures WellEnded(Hyphenated(Words(m)))
  {
    CollapseIsWords(m);
    WordsSpec(m);
    var h := Hyphenated(Words(m));
    if Words(m) == [] {
      if m != [] { AllHyphens(m); }
      hide Collapse, Words, OverLabelChars;
      assert h == "" && Right(m) == "";
      assert Collapse(m) == "-" || Collapse(m) == "";
    } else {
      HyphenatedEnds(Words(m));
      hide Collapse, Words, Hyphenated, OverLabelChars;
      TrimEnds(Left(m), h, Right(m));
    }
  }

  lemma TrimEnds(l: string, h: string, r: string)
    requires (l == "" || l == "-") && (r == "" || r == "-") && h != [] && WellEnded(h)
    ensures Trim(l + h + r) == h
  {
    var s := l + h + r;
    assert TrimLeft(s) == h + r;
    assert (h + r)[..|h|] == h;
  }

  /** Replacing what a label may not have neither joins nor splits words. */
  lemma {:induction false} ReplacedWords(s: string)
    requires forall i :: 0 <= i < |s| ==> !('A' <= s[i] <= 'Z')
    ensures Words(ReplaceInvalid(s)) == Words(s)
  {
    if s != [] {
      ReplacedWords(s[1..]);
      var r := ReplaceInvalid(s);
      assert r[1..] == ReplaceInvalid(s[1..]);
      assert AlphaNumeric(r[0]) == AlphaNumeric(s[0]) && (AlphaNumeric(s[0]) ==> r[0] == s[0]);
      assert |s| > 1 ==> AlphaNumeric(r[1]) == AlphaNumeric(s[1]);
    }
  }

  /** The normalised name is the words of the lower-cased base name joined by hyphens, cut to 63
      characters without a trailing hyphen. */
  lemma NormalizedIsWords(username: string, lower: char -> char)
    requires Lowering(lower)
    ensures var full := Hyphenated(Words(ToLower(StripPrefix(username), lower)));
            Normalize(username, lower) == if |full| > 63 then TrimRight(full[..63]) else full
  {
    var l := ToLower(StripPrefix(username), lower);
    ReplaceInvalidSpec(StripPrefix(username), lower);
    ReplacedWords(l);
    TrimIsWords(ReplaceInvalid(l));
    hide Collapse, Words, Hyphenated, ReplaceInvalid, ToLower, StripPrefix, OverLabelChars;
  }
}
