/** The text of `Crypto.CanonicalJson` read back as the JSON object it stands for. */
module JsonText {
  import opened Prelude
  import opened Crypto
  import Base64Url

  type Member = (string, string)

  // ---- a reader for objects of strings without escapes ----

  function UntilQuote(s: string): (r: Option<(string, string)>)
    ensures r.Some? ==> |r.value.1| < |s|
  {
    if s == [] then None
    else if s[0] == '"' then Some(([], s[1..]))
    else
      match UntilQuote(s[1..])
      case None => None
      case Some((text, rest)) => Some(([s[0]] + text, rest))
  }

  function ReadString(s: string): (r: Option<(string, string)>)
    ensures r.Some? ==> |r.value.1| < |s|
  {
    if s != [] && s[0] == '"' then UntilQuote(s[1..]) else None
  }

  function ReadMembers(s: string): Option<seq<Member>>
    decreases |s|
  {
    match ReadString(s)
    case None => None
    case Some((name, afterName)) =>
      if afterName == [] || afterName[0] != ':' then None
      else
        match ReadString(afterName[1..])
        case None => None
        case Some((value, rest)) =>
          if rest == "}" then Some([(name, value)])
          else if rest == [] || rest[0] != ',' then None
          else
            match ReadMembers(rest[1..])
            case None => None
            case Some(members) => Some([(name, value)] + members)
  }

  function ReadObject(s: string): Option<seq<Member>> {
    if s != [] && s[0] == '{' then ReadMembers(s[1..]) else None
  }

  // ---- reading back what was written ----

  predicate Plain(s: string) { forall i | 0 <= i < |s| :: s[i] != '"' }

  lemma {:induction false} UntilQuoteReads(text: string, rest: string)
    requires Plain(text)
    ensures UntilQuote(text + ("\"" + rest)) == Some((text, rest))
  {
    var s := text + ("\"" + rest);
    if text == [] {
      assert s == "\"" + rest && s[1..] == rest;
    } else {
      UntilQuoteReads(text[1..], rest);
      assert s[1..] == text[1..] + ("\"" + rest);
      assert text == [text[0]] + text[1..];
    }
  }

  function Quoted(text: string, rest: string): string { "\"" + (text + ("\"" + rest)) }

  lemma ReadStringReads(text: string, rest: string)
    requires Plain(text)
    ensures ReadString(Quoted(text, rest)) == Some((text, rest))
  {
    UntilQuoteReads(text, rest);
    assert Quoted(text, rest)[1..] == text + ("\"" + rest);
  }

  function MemberText(name: string, value: string, rest: string): string {
    Quoted(name, ":" + Quoted(value, rest))
  }

  lemma LastMember(name: string, value: string)
    requires Plain(name) && Plain(value)
    ensures ReadMembers(MemberText(name, value, "}")) == Some([(name, value)])
  {
    hide ReadString, Quoted;
    ReadStringReads(name, ":" + Quoted(value, "}"));
    ReadStringReads(value, "}");
    assert (":" + Quoted(value, "}"))[1..] == Quoted(value, "}");
  }

  lemma OneMoreMember(name: string, value: string, more: string, members: seq<Member>)
    requires Plain(name) && Plain(value) && ReadMembers(more) == Some(members)
    ensures ReadMembers(MemberText(name, value, "," + more)) == Some([(name, value)] + members)
  {
    hide ReadString, Quoted;
    ReadStringReads(name, ":" + Quoted(value, "," + more));
    ReadStringReads(value, "," + more);
    assert (":" + Quoted(value, "," + more))[1..] == Quoted(value, "," + more);
    assert ("," + more)[1..] == more && "," + more != "}";
  }

  function ObjectText(members: seq<Member>): string
    requires members != []
  {
    var rest := if |members| == 1 then "}" else "," + ObjectText(members[1..]);
    MemberText(members[0].0, members[0].1, rest)
  }

  lemma {:induction false} ObjectReads(members: seq<Member>)
    requires members != [] && forall m | m in members :: Plain(m.0) && Plain(m.1)
    ensures ReadObject("{" + ObjectText(members)) == Some(members)
  {
    MembersRead(members);
    assert ("{" + ObjectText(members))[1..] == ObjectText(members);
  }

  lemma {:induction false} MembersRead(members: seq<Member>)
    requires members != [] && forall m | m in members :: Plain(m.0) && Plain(m.1)
    ensures ReadMembers(ObjectText(members)) == Some(members)
  {
    hide ReadMembers, MemberText;
    assert Plain(members[0].0) && Plain(members[0].1);
    if |members| == 1 {
      LastMember(members[0].0, members[0].1);
      assert members == [members[0]];
    } else {
      MembersRead(members[1..]);
      OneMoreMember(members[0].0, members[0].1, ObjectText(members[1..]), members[1..]);
      assert members == [members[0]] + members[1..];
    }
  }

  // ---- the canonical text ----

  /** The required members of RFC 7638, each with its own value. */
  function RequiredMembers(key: ThumbprintInput): seq<Member> {
    match key
    case Rsa(n, e) => [("e", Base64Url.Encode(e)), ("kty", "RSA"), ("n", Base64Url.Encode(n))]
    case EcP256(x, y) =>
      [("crv", "P-256"), ("kty", "EC"), ("x", Base64Url.Encode(x)), ("y", Base64Url.Encode(y))]
  }

  lemma EncodingsArePlain(b: Bytes)
    ensures Plain(Base64Url.Encode(b))
  {
    Base64Url.EncodeShape(b);
    hide Base64Url.Encode;
  }

  lemma CanonicalIsObjectText(key: ThumbprintInput)
    ensures CanonicalJson(key) == "{" + ObjectText(RequiredMembers(key))
  {
    hide Base64Url.Encode;
    match key
    case Rsa(n, e) => RsaText(Base64Url.Encode(n), Base64Url.Encode(e));
    case EcP256(x, y) => EcText(Base64Url.Encode(x), Base64Url.Encode(y));
  }

  lemma RsaText(n: string, e: string)
    ensures "{\"e\":\"" + (e + ("\"" + (",\"kty\":\"RSA\",\"n\":\"" + (n + ("\"" + "}")))))
         == "{" + ObjectText([("e", e), ("kty", "RSA"), ("n", n)])
  {
    var all := [("e", e), ("kty", "RSA"), ("n", n)];
    assert all[1..] == [("kty", "RSA"), ("n", n)] && all[1..][1..] == [("n", n)];
    var last := MemberText("n", n, "}");
    assert ObjectText([("n", n)]) == last;
    assert ObjectText(all[1..]) == MemberText("kty", "RSA", "," + last);
    assert ",\"kty\":\"RSA\",\"n\":\"" + (n + ("\"" + "}")) == "," + MemberText("kty", "RSA", "," + last);
  }

  lemma CrvHead(t: string)
    ensures "{\"crv\":\"P-256\"," + t == "{" + MemberText("crv", "P-256", "," + t)
  {
  }

  lemma KtyHead(t: string)
    ensures "\"kty\":\"EC\",\"x\":\"" + t == MemberText("kty", "EC", "," + ("\"x\":\"" + t))
  {
  }

  lemma Glue(p: string, q: string, t: string)
    ensures (p + q) + t == p + (q + t)
  {
  }

  lemma EcHead(t: string)
    ensures "{\"crv\":\"P-256\",\"kty\":\"EC\",\"x\":\"" + t
         == "{" + MemberText("crv", "P-256", "," + MemberText("kty", "EC", "," + ("\"x\":\"" + t)))
  {
    hide MemberText;
    assert "{\"crv\":\"P-256\",\"kty\":\"EC\",\"x\":\"" == "{\"crv\":\"P-256\"," + "\"kty\":\"EC\",\"x\":\"";
    Glue("{\"crv\":\"P-256\",", "\"kty\":\"EC\",\"x\":\"", t);
    KtyHead(t);
    CrvHead("\"kty\":\"EC\",\"x\":\"" + t);
  }

  lemma EcTail(x: string, y: string)
    ensures "\"x\":\"" + (x + ("\"" + (",\"y\":\"" + (y + ("\"" + "}")))))
         == MemberText("x", x, "," + MemberText("y", y, "}"))
  {
    assert ",\"y\":\"" + (y + ("\"" + "}")) == "," + MemberText("y", y, "}");
  }

  lemma EcText(x: string, y: string)
    ensures "{\"crv\":\"P-256\",\"kty\":\"EC\",\"x\":\"" + (x + ("\"" + (",\"y\":\"" + (y + ("\"" + "}")))))
         == "{" + ObjectText([("crv", "P-256"), ("kty", "EC"), ("x", x), ("y", y)])
  {
    hide MemberText;
    var all := [("crv", "P-256"), ("kty", "EC"), ("x", x), ("y", y)];
    assert all[1..] == [("kty", "EC"), ("x", x), ("y", y)] && all[1..][1..] == [("x", x), ("y", y)];
    assert all[1..][1..][1..] == [("y", y)];
    assert ObjectText([("y", y)]) == MemberText("y", y, "}");
    assert ObjectText(all[1..][1..]) == MemberText("x", x, "," + MemberText("y", y, "}"));
    assert ObjectText(all[1..]) == MemberText("kty", "EC", "," + MemberText("x", x, "," + MemberText("y", y, "}")));
    EcTail(x, y);
    EcHead(x + ("\"" + (",\"y\":\"" + (y + ("\"" + "}")))));
  }

  /** The lexicographic order of names. */
  predicate Precedes(a: string, b: string) {
    if b == "" then false
    else if a == "" then true
    else a[0] < b[0] || (a[0] == b[0] && Precedes(a[1..], b[1..]))
  }

  /** Read as a JSON object, the text to be hashed has exactly the required members of the
      key, each with its own value, in strictly increasing order of their names. */
  lemma CanonicalReadsBack(key: ThumbprintInput)
    ensures ReadObject(CanonicalJson(key)) == Some(RequiredMembers(key))
    ensures
      var members := RequiredMembers(key);
      forall i | 0 <= i < |members| - 1 :: Precedes(members[i].0, members[i + 1].0)
  {
    var members := RequiredMembers(key);
    match key {
      case Rsa(n, e) =>
        EncodingsArePlain(n);
        EncodingsArePlain(e);
      case EcP256(x, y) =>
        EncodingsArePlain(x);
        EncodingsArePlain(y);
    }
    hide Base64Url.Encode, CanonicalJson;
    CanonicalIsObjectText(key);
    ObjectReads(members);
  }
}
