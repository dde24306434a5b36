/** The `Authorization` header of the guards (`server/src/auth/middleware.rs`). */
module AuthHeader {
  import opened Prelude

  function ToLower(c: char): char {
    if 'A' <= c <= 'Z' then (c as int - 'A' as int + 'a' as int) as char else c
  }

  predicate EqIgnoreAsciiCase(a: string, b: string) {
    |a| == |b| && forall i :: 0 <= i < |a| ==> ToLower(a[i]) == ToLower(b[i])
  }

  function SplitOnce(s: string, at: char): Option<(string, string)> {
    if s == [] then None
    else if s[0] == at then Some(([], s[1..]))
    else
      match SplitOnce(s[1..], at)
      case None => None
      case Some((left, right)) => Some(([s[0]] + left, right))
  }

  predicate Blank(c: char) { c == ' ' || c == '\t' }

  function TrimStart(s: string): string {
    if s != [] && Blank(s[0]) then TrimStart(s[1..]) else s
  }

  function TrimEnd(s: string): string {
    if s != [] && Blank(s[|s| - 1]) then TrimEnd(s[..|s| - 1]) else s
  }

  /** `str::trim` on the characters a header text may contain. */
  function Trim(s: string): string { TrimEnd(TrimStart(s)) }

  /** The token of an `Authorization: DPoP <token>` value. */
  function BearerToken(value: string): Option<string> {
    match SplitOnce(value, ' ')
    case None => None
    case Some((scheme, rest)) =>
      if !EqIgnoreAsciiCase(scheme, "DPoP") || Trim(rest) == "" then None else Some(Trim(rest))
  }

  /** "DPoP" in any mixture of cases. */
  predicate IsScheme(s: string) {
    |s| == 4 && s[0] in {'D', 'd'} && s[1] in {'P', 'p'} && s[2] in {'O', 'o'} && s[3] in {'P', 'p'}
  }

  lemma SchemeIff(s: string)
    ensures EqIgnoreAsciiCase(s, "DPoP") <==> IsScheme(s)
  {
    if EqIgnoreAsciiCase(s, "DPoP") {
      assert ToLower(s[0]) == 'd' && ToLower(s[1]) == 'p' && ToLower(s[2]) == 'o' && ToLower(s[3]) == 'p';
    }
  }

  lemma {:induction false} SplitsAtFirst(left: string, right: string)
    requires ' ' !in left
    ensures SplitOnce(left + " " + right, ' ') == Some((left, right))
  {
    var s := left + " " + right;
    if left == [] {
      assert s[1..] == right;
    } else {
      SplitsAtFirst(left[1..], right);
      assert s[1..] == left[1..] + " " + right;
      assert left == [left[0]] + left[1..];
    }
  }

  lemma {:induction false} SplitIs(s: string, left: string, right: string)
    requires SplitOnce(s, ' ') == Some((left, right))
    ensures s == left + " " + right && ' ' !in left
  {
    if s[0] != ' ' {
      SplitIs(s[1..], left[1..], right);
      assert s == [s[0]] + s[1..];
    }
  }

  predicate AllBlank(s: string) { forall i | 0 <= i < |s| :: Blank(s[i]) }

  /** Blanks around a text that neither begins nor ends with one. */
  predicate Padded(s: string, before: string, text: string, after: string) {
    && s == before + text + after && AllBlank(before) && AllBlank(after)
    && (text != "" ==> !Blank(text[0]) && !Blank(text[|text| - 1]))
  }

  lemma {:induction false} TrimStartIs(s: string) returns (before: string)
    ensures s == before + TrimStart(s) && AllBlank(before)
    ensures TrimStart(s) != "" ==> !Blank(TrimStart(s)[0])
  {
    if s != [] && Blank(s[0]) {
      var rest := TrimStartIs(s[1..]);
      before := [s[0]] + rest;
      assert s == [s[0]] + s[1..];
    } else {
      before := "";
    }
  }

  lemma {:induction false} TrimEndIs(s: string) returns (after: string)
    ensures s == TrimEnd(s) + after && AllBlank(after)
    ensures TrimEnd(s) != "" ==> !Blank(TrimEnd(s)[|TrimEnd(s)| - 1])
  {
    if s != [] && Blank(s[|s| - 1]) {
      var rest := TrimEndIs(s[..|s| - 1]);
      after := rest + [s[|s| - 1]];
      assert s == s[..|s| - 1] + [s[|s| - 1]];
    } else {
      after := "";
    }
  }

  /** Trimming takes off all the blanks at both ends and nothing else. */
  lemma TrimIs(s: string) returns (before: string, after: string)
    ensures Padded(s, before, Trim(s), after)
  {
    before := TrimStartIs(s);
    after := TrimEndIs(TrimStart(s));
    assert s == before + (Trim(s) + after);
    if Trim(s) != "" {
      assert TrimStart(s)[0] == Trim(s)[0];
    }
  }

  /** Where the padded text begins and ends. */
  lemma Extent(s: string, before: string, text: string, after: string)
    requires Padded(s, before, text, after)
    ensures text == "" <==> AllBlank(s)
    ensures text != "" ==> !Blank(s[|before|]) && !Blank(s[|before| + |text| - 1])
    ensures text == s[|before|..|before| + |text|]
    ensures forall i | 0 <= i < |before| || |before| + |text| <= i < |s| :: Blank(s[i])
  {
    if text != "" {
      assert s[|before|] == text[0] && s[|before| + |text| - 1] == text[|text| - 1];
    }
  }

  /** There is one way to see a text as padded. */
  lemma PaddedOnce(s: string, a: string, t: string, b: string, c: string, u: string, d: string)
    requires Padded(s, a, t, b) && Padded(s, c, u, d)
    ensures t == u
  {
    Extent(s, a, t, b);
    Extent(s, c, u, d);
    assert |a| + |t| <= |s| && |c| + |u| <= |s|;
    hide Padded, Blank;
  }

  /** A header value that carries `token`: the scheme in any case, one space, and a text
      that is the token between blanks. */
  ghost predicate Bears(value: string, token: string) {
    && token != ""
    && exists scheme, rest, before, after ::
         value == scheme + " " + rest && IsScheme(scheme) && Padded(rest, before, token, after)
  }

  lemma BearerTokenIff(value: string, token: string)
    ensures BearerToken(value) == Some(token) <==> Bears(value, token)
  {
    hide Padded, IsScheme, EqIgnoreAsciiCase, SplitOnce, Trim;
    if BearerToken(value) == Some(token) {
      var (scheme, rest) := SplitOnce(value, ' ').value;
      SplitIs(value, scheme, rest);
      SchemeIff(scheme);
      var before, after := TrimIs(rest);
      assert Padded(rest, before, token, after);
    }
    if scheme, rest, before, after :|
         value == scheme + " " + rest && IsScheme(scheme) && Padded(rest, before, token, after) && token != "" {
      SchemeHasNoSpace(scheme);
      SplitsAtFirst(scheme, rest);
      SchemeIff(scheme);
      var b, a := TrimIs(rest);
      PaddedOnce(rest, before, token, after, b, Trim(rest), a);
    }
  }

  /** Nothing is left of a text exactly when it is all blank. */
  lemma TrimmedAwayIff(s: string)
    ensures Trim(s) == "" <==> AllBlank(s)
  {
    var before, after := TrimIs(s);
    Extent(s, before, Trim(s), after);
  }

  lemma SchemeHasNoSpace(scheme: string)
    requires IsScheme(scheme)
    ensures ' ' !in scheme
  {
  }
}
