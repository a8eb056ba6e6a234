// What a challenge says, when it is refused, and what the header that answers it
// holds, in the terms of sections 3.4.1 to 3.4.3 of RFC 7616.
module DigestMeaning {
  import opened Prelude
  import opened Digest

  // ---- Texts ----

  predicate AllSpace(s: string) {
    forall c :: c in s ==> IsSpace(c)
  }

  predicate Tight(s: string) {
    s != [] ==> !IsSpace(s[0]) && !IsSpace(s[|s| - 1])
  }

  lemma {:induction false} TrimLeftCuts(lead: string, t: string)
    requires AllSpace(lead) && (t != [] ==> !IsSpace(t[0]))
    ensures TrimLeft(lead + t) == t
  {
    if lead == [] {
      assert lead + t == t;
    } else {
      assert lead[0] in lead && (lead + t)[1..] == lead[1..] + t;
      TrimLeftCuts(lead[1..], t);
    }
  }

  lemma {:induction false} TrimRightCuts(t: string, tail: string)
    requires AllSpace(tail) && (t != [] ==> !IsSpace(t[|t| - 1]))
    ensures TrimRight(t + tail) == t
  {
    if tail == [] {
      assert t + tail == t;
    } else {
      var n := |tail| - 1;
      assert tail[n] in tail && (t + tail)[..|t + tail| - 1] == t + tail[..n];
      TrimRightCuts(t, tail[..n]);
    }
  }

  // Trimming takes away the space on both sides and nothing else.
  lemma TrimCuts(lead: string, t: string, tail: string)
    requires AllSpace(lead) && AllSpace(tail) && Tight(t)
    ensures Trim(lead + t + tail) == t
  {
    if t == [] {
      assert lead + t + tail == (lead + tail) + [];
      TrimLeftCuts(lead + tail, []);
    } else {
      assert lead + t + tail == lead + (t + tail) && (t + tail)[0] == t[0];
      TrimLeftCuts(lead, t + tail);
      TrimRightCuts(t, tail);
    }
  }

  // The second text is the first in lower case.
  predicate InLowerCase(s: string, low: string) {
    && |s| == |low|
    && forall i: nat :: i < |s| ==>
         if 'A' <= s[i] <= 'Z' then low[i] as int == s[i] as int + 32 else low[i] == s[i]
  }

  lemma LowerIs(s: string, low: string)
    ensures Lower(s) == low <==> InLowerCase(s, low)
  {
    if InLowerCase(s, low) {
      assert forall i :: 0 <= i < |s| ==> Lower(s)[i] == low[i];
    }
  }

  // The parts make up the text, with the separator between them and in none of them.
  ghost predicate Cuts(parts: seq<string>, s: string, c: char) {
    parts != [] && Join(parts, [c]) == s && forall part :: part in parts ==> c !in part
  }

  // Splitting cuts at every separator, and only there.
  lemma {:induction false} SplitCuts(s: string, c: char)
    ensures Cuts(Split(s, c), s, c)
    decreases |s|
  {
    var i := Find(s, c);
    if i == |s| {
      assert s[..i] == s;
      NoCut(s, c);
    } else {
      SplitCuts(s[i + 1..], c);
      CutOff(s, c, i, Split(s[i + 1..], c));
      SplitOff(s, c);
    }
  }

  lemma SplitOff(s: string, c: char)
    requires Find(s, c) < |s|
    ensures Split(s, c) == [s[..Find(s, c)]] + Split(s[Find(s, c) + 1..], c)
  {
  }

  lemma NoCut(s: string, c: char)
    requires c !in s
    ensures Cuts([s], s, c)
  {
  }

  lemma CutOff(s: string, c: char, i: nat, rest: seq<string>)
    requires i < |s| && s[i] == c && c !in s[..i] && Cuts(rest, s[i + 1..], c)
    ensures Cuts([s[..i]] + rest, s, c)
  {
    JoinFirst(s[..i], rest, [c]);
    assert s == s[..i] + [c] + s[i + 1..];
  }

  lemma {:induction false} JoinFirst(first: string, rest: seq<string>, separator: string)
    requires rest != []
    ensures Join([first] + rest, separator) == first + separator + Join(rest, separator)
    decreases |rest|
  {
    var all, n := [first] + rest, |rest| - 1;
    assert all[..|all| - 1] == [first] + rest[..n];
    if n == 0 {
      assert all[..1] == [first];
    } else {
      JoinFirst(first, rest[..n], separator);
    }
  }

  function HexValue(c: char): int {
    if '0' <= c <= '9' then c as int - '0' as int else c as int - 'a' as int + 10
  }

  predicate ReadsAs(high: char, low: char, b: Byte) {
    16 * HexValue(high) + HexValue(low) == b as int
  }

  predicate ReadsAt(s: string, bytes: seq<Byte>, i: nat) {
    i < |bytes| && 2 * i + 1 < |s| && ReadsAs(s[2 * i], s[2 * i + 1], bytes[i])
  }

  // Each byte is printed as two digits, the high one first.
  lemma {:induction false} HexReads(bytes: seq<Byte>, i: nat)
    requires i < |bytes|
    ensures |Hex(bytes)| == 2 * |bytes| && ReadsAt(Hex(bytes), bytes, i)
  {
    var n := |bytes| - 1;
    HexLength(bytes);
    HexLast(bytes);
    if i < n {
      HexReads(bytes[..n], i);
      ReadsOn(Hex(bytes[..n]), bytes, i, HexPair(bytes[n]));
    } else {
      HexLength(bytes[..n]);
      LastReads(Hex(bytes[..n]), bytes);
    }
  }

  function HexPair(b: Byte): string {
    [HexDigit(b as int / 16), HexDigit(b as int % 16)]
  }

  lemma HexLast(bytes: seq<Byte>)
    requires bytes != []
    ensures Hex(bytes) == Hex(bytes[..|bytes| - 1]) + HexPair(bytes[|bytes| - 1])
  {
  }

  lemma ReadsOn(front: string, bytes: seq<Byte>, i: nat, tail: string)
    requires i + 1 < |bytes| && ReadsAt(front, bytes[..|bytes| - 1], i)
    ensures ReadsAt(front + tail, bytes, i)
  {
  }

  lemma LastReads(front: string, bytes: seq<Byte>)
    requires bytes != [] && |front| == 2 * (|bytes| - 1)
    ensures ReadsAt(front + HexPair(bytes[|bytes| - 1]), bytes, |bytes| - 1)
  {
    ByteReads(bytes[|bytes| - 1]);
  }

  lemma ByteReads(b: Byte)
    ensures ReadsAs(HexDigit(b as int / 16), HexDigit(b as int % 16), b)
  {
    HexDigitReads(b as int / 16);
    HexDigitReads(b as int % 16);
  }

  lemma {:induction false} HexLength(bytes: seq<Byte>)
    ensures |Hex(bytes)| == 2 * |bytes|
  {
    if bytes != [] {
      HexLength(bytes[..|bytes| - 1]);
    }
  }

  lemma HexDigitReads(n: nat)
    requires n < 16
    ensures HexValue(HexDigit(n)) == n
  {
  }

  // ---- The challenge ----

  // The key in lower case, the value without the quotes around it.
  predicate ReadAs(read: Option<(string, string)>, key: string, v: string) {
    && read.Some? && InLowerCase(key, read.value.0)
    && read.value.1 == if |v| >= 2 && v[0] == '\"' && v[|v| - 1] == '\"' then v[1..|v| - 1] else v
  }

  // A parameter is read however it is spaced.
  lemma PartReads(a: string, key: string, b: string, c: string, v: string, d: string)
    requires AllSpace(a) && AllSpace(b) && AllSpace(c) && AllSpace(d)
    requires key != [] && Tight(key) && '=' !in key && v != [] && Tight(v)
    ensures ReadAs(ParsePart(a + (key + b + "=" + c + v) + d), key, v)
  {
    var t := key + b + "=" + c + v;
    EqualsAt(key, b, c, v);
    TrimCuts(a, t, d);
    TightPart(a + t + d, t, key, b, c, v);
  }

  // A part without the space around it, cut at the equals sign.
  lemma TightPart(part: string, t: string, key: string, b: string, c: string, v: string)
    requires Trim(part) == t && AllSpace(b) && AllSpace(c) && Tight(key) && Tight(v)
    requires Find(t, '=') == |key + b| < |t| && t[..|key + b|] == key + b && t[|key + b| + 1..] == c + v
    ensures ReadAs(ParsePart(part), key, v)
  {
    TrimBack(key, b);
    TrimFront(c, v);
    assert ParsePart(part) == Some((Lower(key), Unquote(v)));
    LowerIs(key, Lower(key));
  }

  lemma EqualsAt(key: string, b: string, c: string, v: string)
    requires key != [] && '=' !in key && AllSpace(b) && v != []
    ensures var t, i := key + b + "=" + c + v, |key + b|;
            && t[0] == key[0] && t[|t| - 1] == v[|v| - 1]
            && Find(t, '=') == i < |t| && t[..i] == key + b && t[i + 1..] == c + v
  {
    var t, i := key + b + "=" + c + v, |key + b|;
    assert !IsSpace('=');
    forall j | 0 <= j < i
      ensures t[j] != '='
    {
      if j < |key| {
        assert t[j] == key[j] && key[j] in key;
      } else {
        assert t[j] == b[j - |key|] && b[j - |key|] in b;
      }
    }
    FindIs(t, '=', i);
  }

  lemma TrimFront(c: string, v: string)
    requires AllSpace(c) && Tight(v)
    ensures Trim(c + v) == v
  {
    TrimCuts(c, v, []);
    assert c + v + [] == c + v;
  }

  lemma TrimBack(key: string, b: string)
    requires AllSpace(b) && Tight(key)
    ensures Trim(key + b) == key
  {
    TrimCuts([], key, b);
    assert [] + key + b == key + b;
  }

  // Without an equals sign there is no parameter.
  lemma PartWithout(part: string)
    requires '=' !in part
    ensures ParsePart(part).None?
  {
    TrimIsInside(part);
  }

  lemma TrimIsInside(s: string)
    ensures forall c :: c in Trim(s) ==> c in s
  {
    TrimLeftIsInside(s);
    TrimRightIsInside(TrimLeft(s));
  }

  lemma {:induction false} TrimLeftIsInside(s: string)
    ensures forall c :: c in TrimLeft(s) ==> c in s
  {
    if s != [] && IsSpace(s[0]) {
      TrimLeftIsInside(s[1..]);
    }
  }

  lemma {:induction false} TrimRightIsInside(s: string)
    ensures forall c :: c in TrimRight(s) ==> c in s
  {
    if s != [] && IsSpace(s[|s| - 1]) {
      TrimRightIsInside(s[..|s| - 1]);
    }
  }

  // A parameter that is given and not empty.
  predicate Given(params: Params, key: string) {
    key in params && params[key] != ""
  }

  predicate KnownAlgorithm(params: Params) {
    Given(params, "algorithm") ==>
      InLowerCase(params["algorithm"], "md5") || InLowerCase(params["algorithm"], "md5-sess")
  }

  // A challenge is refused exactly if it is not a Digest challenge, lacks a realm or
  // a nonce, or asks for another algorithm.
  lemma HeaderErrorIff(challenge: string)
    ensures var t, error := Trim(challenge), HeaderError(challenge);
            && (error == Some(NotDigest) <==> |t| < 7 || !InLowerCase(t[..7], "digest "))
            && (error != Some(NotDigest) ==>
                  var params := Parse(t[7..]);
                  && (error == Some(NoRealmOrNonce) <==> !Given(params, "realm") || !Given(params, "nonce"))
                  && (error.None? <==> Given(params, "realm") && Given(params, "nonce") && KnownAlgorithm(params)))
  {
    var t := Trim(challenge);
    if |t| >= 7 {
      LowerIs(t[..7], "digest ");
      var algorithm := Get(Parse(t[7..]), "algorithm");
      LowerIs(algorithm, "");
      LowerIs(algorithm, "md5");
      LowerIs(algorithm, "md5-sess");
    }
  }

  // ---- The response ----

  function H(data: string, md5: string -> seq<Byte>): string {
    Hex(md5(data))
  }

  function KD(secret: string, data: string, md5: string -> seq<Byte>): string {
    H(secret + ":" + data, md5)
  }

  // Section 3.4.2 of RFC 7616.
  function A1(username: string, realm: string, password: string, nonce: string, cnonce: string, session: bool,
              md5: string -> seq<Byte>): string {
    if session then H(username + ":" + realm + ":" + password, md5) + ":" + nonce + ":" + cnonce
    else username + ":" + realm + ":" + password
  }

  // Section 3.4.3.
  function A2(verb: string, uri: string): string {
    verb + ":" + uri
  }

  // One of the offered qualities of protection is "auth".
  ghost predicate AuthOffered(qop: string) {
    exists part :: part in Split(qop, ',') && InLowerCase(Trim(part), "auth")
  }

  lemma AuthOfferedIff(qop: string)
    ensures OffersAuth(qop) <==> AuthOffered(qop)
  {
    var parts := Split(qop, ',');
    forall i | 0 <= i < |parts|
      ensures Lower(Trim(parts[i])) == "auth" <==> InLowerCase(Trim(parts[i]), "auth")
    {
      LowerIs(Trim(parts[i]), "auth");
    }
  }

  function TextOf(params: Params, key: string): string {
    if key in params then params[key] else ""
  }

  // The response is the request digest of section 3.4.1: of H(A1), the nonce, the
  // nonce count 1, the client nonce, "auth" and H(A2), or only of H(A1), the nonce and
  // H(A2) if "auth" is not offered.
  lemma ResponseIsRequestDigest(params: Params, username: string, password: string, verb: string, uri: string,
                                cnonce: string, md5: string -> seq<Byte>)
    requires KnownAlgorithm(params)
    ensures var session := Given(params, "algorithm") && InLowerCase(params["algorithm"], "md5-sess");
            var nonce := TextOf(params, "nonce");
            var ha1 := H(A1(username, TextOf(params, "realm"), password, nonce, cnonce, session, md5), md5);
            var ha2 := H(A2(verb, uri), md5);
            Response(params, username, password, verb, uri, cnonce, md5) ==
              if AuthOffered(TextOf(params, "qop"))
              then KD(ha1, nonce + ":00000001:" + cnonce + ":auth:" + ha2, md5)
              else KD(ha1, nonce + ":" + ha2, md5)
  {
    LowerIs(TextOf(params, "algorithm"), "md5-sess");
    AuthOfferedIff(TextOf(params, "qop"));
    var nonce, realm := TextOf(params, "nonce"), TextOf(params, "realm");
    var session := Lower(TextOf(params, "algorithm")) == "md5-sess";
    var ha1, ha2 := H(A1(username, realm, password, nonce, cnonce, session, md5), md5), H(A2(verb, uri), md5);
    Regroup(ha1 + ":", nonce, ":00000001:", cnonce, ":auth:", ha2);
    Regroup(ha1 + ":", nonce, ":", [], [], ha2);
    assert ha1 + ":" + nonce + ":" + [] + [] + ha2 == ha1 + ":" + nonce + ":" + ha2;
    assert nonce + ":" + [] + [] + ha2 == nonce + ":" + ha2;
  }

  lemma Regroup(s: string, a: string, b: string, c: string, d: string, e: string)
    ensures s + a + b + c + d + e == s + (a + b + c + d + e)
  {
  }

  // ---- The header ----

  predicate Holds(seen: Params, key: string, text: string) {
    key in seen && Unescape(seen[key]) == text
  }

  // The fields as a receiver reads them, and no others.
  ghost predicate Reads(seen: Params, fields: seq<Field>) {
    && (forall f :: f in fields ==>
          f.key in seen && seen[f.key] == ValueOf(f) && (f.Quoted? ==> Holds(seen, f.key, f.raw)))
    && (forall key :: key in seen ==> exists f :: f in fields && f.key == key)
  }

  lemma AlgorithmKnown(params: Params)
    requires KnownAlgorithm(params)
    ensures var algorithm := Lower(Get(params, "algorithm"));
            algorithm == "" || algorithm == "md5" || algorithm == "md5-sess"
  {
    LowerIs(TextOf(params, "algorithm"), "md5");
    LowerIs(TextOf(params, "algorithm"), "md5-sess");
  }

  // A receiver reads the header's fields out of it, each text unescaped as it was.
  lemma HeaderReads(params: Params, username: string, uri: string, response: string, cnonce: string)
    requires KnownAlgorithm(params)
    ensures var fields := HeaderFields(params, username, uri, response, cnonce);
            Reads(Parse(Join(PrintAll(fields), ", ")), fields)
  {
    AlgorithmKnown(params);
    HeaderParses(params, username, uri, response, cnonce);
    var fields := HeaderFields(params, username, uri, response, cnonce);
    forall f | f in fields && f.Quoted?
      ensures Unescape(ValueOf(f)) == f.raw
    {
      UnescapeInvertsEscape(f.raw);
    }
  }

  // It reads who asks for what, with the response ...
  lemma HeaderTells(seen: Params, params: Params, username: string, uri: string, response: string, cnonce: string)
    requires Reads(seen, HeaderFields(params, username, uri, response, cnonce))
    ensures Holds(seen, "username", username) && Holds(seen, "uri", uri) && Holds(seen, "response", response)
    ensures Holds(seen, "realm", TextOf(params, "realm")) && Holds(seen, "nonce", TextOf(params, "nonce"))
  {
    var fields := HeaderFields(params, username, uri, response, cnonce);
    var fixed := FixedFields(params, username, uri, response);
    assert forall i :: 0 <= i < |fixed| ==> fields[i] == fixed[i];
    assert fields[0] in fields && fields[1] in fields && fields[2] in fields;
    assert fields[3] in fields && fields[4] in fields;
  }

  // The ranks of the fields that are in every header, and of the groups that are not.
  lemma RanksOf(params: Params, username: string, uri: string, response: string, cnonce: string)
    requires KnownAlgorithm(params)
    ensures forall f :: f in FixedFields(params, username, uri, response) ==> Rank(f.key) < 5
    ensures forall f :: f in AlgorithmFields(params) ==> Rank(f.key) == 5
    ensures forall f :: f in OpaqueFields(params) ==> Rank(f.key) == 6
    ensures forall f :: f in AuthFields(params, cnonce) ==> 7 <= Rank(f.key)
  {
    AlgorithmKnown(params);
    AlgorithmIsBare(Get(params, "algorithm"));
    FixedRanked(params, username, uri, response);
    OptionalRanked(params);
    AuthRanked(params, cnonce);
  }

  lemma NoSuchKey(seen: Params, fields: seq<Field>, key: string)
    requires Reads(seen, fields) && forall f :: f in fields ==> Rank(f.key) != Rank(key)
    ensures key !in seen
  {
  }

  // ... the algorithm and the opaque text of the challenge, exactly if it gives them ...
  lemma HeaderRepeats(seen: Params, params: Params, username: string, uri: string, response: string, cnonce: string)
    requires KnownAlgorithm(params) && Reads(seen, HeaderFields(params, username, uri, response, cnonce))
    ensures if Given(params, "algorithm") then "algorithm" in seen && seen["algorithm"] == params["algorithm"]
            else "algorithm" !in seen
    ensures if Given(params, "opaque") then Holds(seen, "opaque", params["opaque"]) else "opaque" !in seen
  {
    RanksOf(params, username, uri, response, cnonce);
    var fields := HeaderFields(params, username, uri, response, cnonce);
    if Given(params, "algorithm") {
      assert AlgorithmFields(params)[0] in fields;
    } else {
      NoSuchKey(seen, fields, "algorithm");
    }
    if Given(params, "opaque") {
      assert OpaqueFields(params)[0] in fields;
    } else {
      NoSuchKey(seen, fields, "opaque");
    }
  }

  // ... and, exactly if "auth" is offered, that it was chosen, with the count and the
  // client nonce that are in the response.
  lemma HeaderProtects(seen: Params, params: Params, username: string, uri: string, response: string, cnonce: string)
    requires KnownAlgorithm(params) && Reads(seen, HeaderFields(params, username, uri, response, cnonce))
    ensures if AuthOffered(TextOf(params, "qop"))
            then "qop" in seen && seen["qop"] == "auth" && "nc" in seen && seen["nc"] == "00000001"
                 && Holds(seen, "cnonce", cnonce)
            else "qop" !in seen && "nc" !in seen && "cnonce" !in seen
  {
    AuthOfferedIff(TextOf(params, "qop"));
    if AuthOffered(TextOf(params, "qop")) {
      AuthChosen(seen, params, username, uri, response, cnonce);
    } else {
      NoAuthFields(params, username, uri, response, cnonce);
      AuthAbsent(seen, HeaderFields(params, username, uri, response, cnonce));
    }
  }

  lemma AuthChosen(seen: Params, params: Params, username: string, uri: string, response: string, cnonce: string)
    requires Reads(seen, HeaderFields(params, username, uri, response, cnonce)) && OffersAuth(TextOf(params, "qop"))
    ensures "qop" in seen && seen["qop"] == "auth" && "nc" in seen && seen["nc"] == "00000001"
    ensures Holds(seen, "cnonce", cnonce)
  {
    var fields, auth := HeaderFields(params, username, uri, response, cnonce), AuthFields(params, cnonce);
    assert auth[0] in fields && auth[1] in fields && auth[2] in fields;
  }

  lemma AuthAbsent(seen: Params, fields: seq<Field>)
    requires Reads(seen, fields) && forall f :: f in fields ==> Rank(f.key) < 7
    ensures "qop" !in seen && "nc" !in seen && "cnonce" !in seen
  {
    LateRanks();
    NoSuchKey(seen, fields, "qop");
    NoSuchKey(seen, fields, "nc");
    NoSuchKey(seen, fields, "cnonce");
  }

  lemma LateRanks()
    ensures Rank("qop") == 7 && Rank("nc") == 8 && Rank("cnonce") == 9
  {
    KeysAreWords();
  }

  lemma NoAuthFields(params: Params, username: string, uri: string, response: string, cnonce: string)
    requires KnownAlgorithm(params) && !OffersAuth(TextOf(params, "qop"))
    ensures forall f :: f in HeaderFields(params, username, uri, response, cnonce) ==> Rank(f.key) < 7
  {
    RanksOf(params, username, uri, response, cnonce);
  }
}
