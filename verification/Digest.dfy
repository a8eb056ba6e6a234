// HTTP Digest authorization (internal/cameraio/cameraio.go): reading a challenge's
// parameters and printing the header of section 3.4 of RFC 7616. Texts are
// sequences of characters; letters outside ASCII have no case here.
module Digest {
  import opened Prelude

  type Params = map<string, string>

  datatype DigestError = NotDigest | NoRealmOrNonce | UnsupportedAlgorithm(algorithm: string)

  // ---- Text functions of the standard library ----

  predicate IsSpace(c: char) {
    || c == ' ' || '\t' <= c <= '\r' || c == '\U{85}' || c == '\U{A0}' || c == '\U{1680}'
    || '\U{2000}' <= c <= '\U{200A}'
    || c == '\U{2028}' || c == '\U{2029}' || c == '\U{202F}' || c == '\U{205F}' || c == '\U{3000}'
  }

  function TrimLeft(s: string): string {
    if s != [] && IsSpace(s[0]) then TrimLeft(s[1..]) else s
  }

  function TrimRight(s: string): string {
    if s != [] && IsSpace(s[|s| - 1]) then TrimRight(s[..|s| - 1]) else s
  }

  function Trim(s: string): string {
    TrimRight(TrimLeft(s))
  }

  function LowerChar(c: char): char {
    if 'A' <= c <= 'Z' then c - 'A' + 'a' else c
  }

  function Lower(s: string): (l: string)
    ensures |l| == |s|
  {
    seq(|s|, i requires 0 <= i < |s| => LowerChar(s[i]))
  }

  // Where a character first occurs; the length if it does not.
  function Find(s: string, c: char): (i: nat)
    ensures i <= |s| && (i < |s| ==> s[i] == c) && c !in s[..i]
  {
    if s == [] || s[0] == c then 0
    else
      var i := 1 + Find(s[1..], c);
      assert s[..i] == [s[0]] + s[1..][..i - 1];
      i
  }

  function ReplaceAll(s: string, c: char, put: string): string {
    if s == [] then [] else ReplaceAll(s[..|s| - 1], c, put) + if s[|s| - 1] == c then put else [s[|s| - 1]]
  }

  function Split(s: string, c: char): seq<string>
    decreases |s|
  {
    var i := Find(s, c);
    if i == |s| then [s] else [s[..i]] + Split(s[i + 1..], c)
  }

  function Join(parts: seq<string>, separator: string): string {
    if parts == [] then []
    else if |parts| == 1 then parts[0]
    else Join(parts[..|parts| - 1], separator) + (separator + parts[|parts| - 1])
  }

  function HexDigit(n: nat): char
    requires n < 16
  {
    "0123456789abcdef"[n]
  }

  function Hex(bytes: seq<Byte>): (s: string)
    ensures forall c :: c in s ==> '0' <= c <= '9' || 'a' <= c <= 'f'
  {
    if bytes == [] then []
    else
      var b := bytes[|bytes| - 1] as int;
      Hex(bytes[..|bytes| - 1]) + [HexDigit(b / 16), HexDigit(b % 16)]
  }

  // ---- Escaping ----

  function Escape(v: string): string {
    ReplaceAll(ReplaceAll(v, '\\', "\\\\"), '\"', "\\\"")
  }

  function EscapeChar(c: char): string {
    if c == '\\' then "\\\\" else if c == '\"' then "\\\"" else [c]
  }

  predicate NeedsNoEscape(v: string) {
    '\"' !in v && '\\' !in v
  }

  lemma {:induction false} ReplaceConcat(a: string, b: string, c: char, put: string)
    ensures ReplaceAll(a + b, c, put) == ReplaceAll(a, c, put) + ReplaceAll(b, c, put)
  {
    if b == [] {
      assert a + b == a;
    } else {
      var n := |b| - 1;
      ReplaceConcat(a, b[..n], c, put);
      assert (a + b)[..|a + b| - 1] == a + b[..n];
      AppendAssociates(ReplaceAll(a, c, put), ReplaceAll(b[..n], c, put), if b[n] == c then put else [b[n]]);
    }
  }

  lemma AppendAssociates(a: string, b: string, c: string)
    ensures (a + b) + c == a + (b + c)
  {
  }

  // The two passes escape character by character.
  lemma EscapeLast(v: string, c: char)
    ensures Escape(v + [c]) == Escape(v) + EscapeChar(c)
  {
    ReplaceConcat(v, [c], '\\', "\\\\");
    var first := ReplaceAll(v, '\\', "\\\\");
    var last := if c == '\\' then "\\\\" else [c];
    assert ReplaceAll([c], '\\', "\\\\") == last by {
      assert [c][..0] == [];
    }
    ReplaceConcat(first, last, '\"', "\\\"");
    assert ReplaceAll(last, '\"', "\\\"") == EscapeChar(c) by {
      assert last[..|last| - 1] == if c == '\\' then "\\" else [];
      assert "\\"[..0] == [];
    }
  }

  lemma {:induction false} EscapeGrows(v: string)
    ensures |Escape(v)| >= |v| && (|Escape(v)| == |v| ==> NeedsNoEscape(v))
    ensures NeedsNoEscape(v) ==> Escape(v) == v
    ensures NeedsNoEscape(Escape(v)) <==> NeedsNoEscape(v)
  {
    if v != [] {
      var before, c := v[..|v| - 1], v[|v| - 1];
      assert v == before + [c];
      EscapeGrows(before);
      EscapeLast(before, c);
    }
  }

  // A text is printed as it is exactly if it has no quote and no backslash; a text
  // that was read back escaped is then escaped a second time.
  lemma EscapeIsIdentityIff(v: string)
    ensures Escape(v) == v <==> NeedsNoEscape(v)
    ensures Escape(Escape(v)) == Escape(v) <==> NeedsNoEscape(v)
  {
    EscapeGrows(v);
    EscapeGrows(Escape(v));
  }

  // ---- Scanning a parameter list ----

  datatype Scanner = Scanner(parts: seq<string>, current: string, quoted: bool, escaped: bool)

  function StepChar(s: Scanner, c: char): Scanner {
    if c == '\\' then s.(current := s.current + [c], escaped := if s.quoted then !s.escaped else s.escaped)
    else if c == '\"' then
      s.(current := s.current + [c], quoted := if s.escaped then s.quoted else !s.quoted, escaped := false)
    else if c == ',' && !s.quoted then Scanner(s.parts + [s.current], [], s.quoted, false)
    else s.(current := s.current + [c], escaped := false)
  }

  function Scan(s: Scanner, text: string): Scanner {
    if text == [] then s else StepChar(Scan(s, text[..|text| - 1]), text[|text| - 1])
  }

  function Pieces(text: string): seq<string> {
    var s := Scan(Scanner([], [], false, false), text);
    s.parts + [s.current]
  }

  function Unquote(v: string): string {
    if |v| >= 2 && v[0] == '\"' && v[|v| - 1] == '\"' then v[1..|v| - 1] else v
  }

  function ParsePart(part: string): Option<(string, string)> {
    var t := Trim(part);
    var i := Find(t, '=');
    if i == |t| then None else Some((Lower(Trim(t[..i])), Unquote(Trim(t[i + 1..]))))
  }

  function ParseParts(parts: seq<string>): Params {
    if parts == [] then map[]
    else
      var before := ParseParts(parts[..|parts| - 1]);
      match ParsePart(parts[|parts| - 1])
      case None => before
      case Some(pair) => before[pair.0 := pair.1]
  }

  function Parse(text: string): Params {
    ParseParts(Pieces(text))
  }

  method ParseDigestParams(value: string) returns (out: Params)
    ensures out == Parse(value)
  {
    var parts := SplitParams(value);
    out := map[];
    for i := 0 to |parts|
      invariant out == ParseParts(parts[..i])
    {
      assert parts[..i + 1][..i] == parts[..i];
      var pair := ReadPart(parts[i]);
      if pair.None? {
        continue;
      }
      out := out[pair.value.0 := pair.value.1];
    }
    assert parts[..|parts|] == parts;
  }

  // The loop over the characters.
  method SplitParams(value: string) returns (parts: seq<string>)
    ensures parts == Pieces(value)
  {
    parts := [];
    var start, quoted, escaped := 0, false, false;
    for i := 0 to |value|
      invariant 0 <= start <= i
      invariant Scan(Scanner([], [], false, false), value[..i]) == Scanner(parts, value[start..i], quoted, escaped)
    {
      SliceGrows(value, start, i);
      ScanGrows(Scanner([], [], false, false), value, i);
      if value[i] == '\\' {
        if quoted {
          escaped := !escaped;
        }
      } else if value[i] == '\"' {
        if !escaped {
          quoted := !quoted;
        }
        escaped := false;
      } else if value[i] == ',' {
        if !quoted {
          parts := parts + [value[start..i]];
          start := i + 1;
        }
        escaped := false;
      } else {
        escaped := false;
      }
    }
    assert value[..|value|] == value;
    parts := parts + [value[start..]];
  }

  lemma SliceGrows(value: string, start: nat, i: nat)
    requires start <= i < |value|
    ensures value[start..i + 1] == value[start..i] + [value[i]]
  {
  }

  lemma ScanGrows(s: Scanner, value: string, i: nat)
    requires i < |value|
    ensures Scan(s, value[..i + 1]) == StepChar(Scan(s, value[..i]), value[i])
  {
    assert value[..i + 1][..i] == value[..i];
  }

  // The body of the loop over the parts.
  method ReadPart(part: string) returns (pair: Option<(string, string)>)
    ensures pair == ParsePart(part)
  {
    var trimmed := Trim(part);
    var at := Find(trimmed, '=');
    if at == |trimmed| {
      return None;
    }
    var key := Lower(Trim(trimmed[..at]));
    var val := Trim(trimmed[at + 1..]);
    if |val| >= 2 && val[0] == '\"' && val[|val| - 1] == '\"' {
      val := val[1..|val| - 1];
    }
    return Some((key, val));
  }

  // ---- Fields as they are printed ----

  datatype Field = Quoted(key: string, raw: string) | Plain(key: string, token: string)

  function Print(f: Field): string {
    match f
    case Quoted(key, raw) => (key + "=") + ("\"" + (Escape(raw) + "\""))
    case Plain(key, token) => key + ("=" + token)
  }

  function PrintAll(fields: seq<Field>): seq<string> {
    seq(|fields|, i requires 0 <= i < |fields| => Print(fields[i]))
  }

  predicate Harmless(c: char) {
    !IsSpace(c) && c != '\\' && c != '\"' && c != ',' && c != '='
  }

  predicate Bare(s: string) {
    s != [] && forall i :: 0 <= i < |s| ==> Harmless(s[i])
  }

  // Keys are bare words in lower case, unquoted values bare words.
  predicate WellFormed(f: Field) {
    Bare(f.key) && Lower(f.key) == f.key && (f.Plain? ==> Bare(f.token))
  }

  function ValueOf(f: Field): string {
    if f.Quoted? then Escape(f.raw) else f.token
  }

  function Expected(fields: seq<Field>): Params {
    if fields == [] then map[]
    else
      var last := fields[|fields| - 1];
      Expected(fields[..|fields| - 1])[last.key := ValueOf(last)]
  }

  function Push(s: Scanner, text: string): Scanner {
    s.(current := s.current + text)
  }

  lemma PushConcat(s: Scanner, a: string, b: string)
    ensures Push(Push(s, a), b) == Push(s, a + b)
  {
    assert s.current + a + b == s.current + (a + b);
  }

  lemma {:induction false} ScanConcat(s: Scanner, a: string, b: string)
    ensures Scan(s, a + b) == Scan(Scan(s, a), b)
  {
    if b == [] {
      assert a + b == a;
    } else {
      ScanConcat(s, a, b[..|b| - 1]);
      assert (a + b)[..|a + b| - 1] == a + b[..|b| - 1];
    }
  }

  lemma ScanChar(s: Scanner, c: char)
    ensures Scan(s, [c]) == StepChar(s, c)
  {
    assert [c][..0] == [];
  }

  lemma {:induction false} ScanHarmless(s: Scanner, text: string)
    requires !s.quoted && !s.escaped && forall i :: 0 <= i < |text| ==> text[i] == '=' || Harmless(text[i])
    ensures Scan(s, text) == Push(s, text)
  {
    if text == [] {
      assert s.current + text == s.current;
    } else {
      var n := |text| - 1;
      ScanHarmless(s, text[..n]);
      PushConcat(s, text[..n], [text[n]]);
      assert text[..n] + [text[n]] == text;
    }
  }

  lemma ScanEscapedChar(s: Scanner, c: char)
    requires s.quoted && !s.escaped
    ensures Scan(s, EscapeChar(c)) == Push(s, EscapeChar(c))
  {
    if |EscapeChar(c)| == 2 {
      ScanConcat(s, "\\", [c]);
      ScanChar(s, '\\');
      ScanChar(StepChar(s, '\\'), c);
      PushConcat(s, "\\", [c]);
      assert EscapeChar(c) == "\\" + [c];
    } else {
      ScanChar(s, c);
    }
  }

  // Inside quotes, escaped text never ends the quotation and leaves no escape
  // pending.
  lemma {:induction false} ScanEscaped(s: Scanner, raw: string)
    requires s.quoted && !s.escaped
    ensures Scan(s, Escape(raw)) == Push(s, Escape(raw))
  {
    if raw == [] {
      assert s.current + Escape(raw) == s.current;
    } else {
      var before, c := raw[..|raw| - 1], raw[|raw| - 1];
      assert raw == before + [c];
      ScanEscaped(s, before);
      EscapeLast(before, c);
      ScanConcat(s, Escape(before), EscapeChar(c));
      ScanEscapedChar(Push(s, Escape(before)), c);
      PushConcat(s, Escape(before), EscapeChar(c));
    }
  }

  // A quotation is taken over as it stands.
  lemma ScanQuotation(s: Scanner, raw: string)
    requires !s.quoted && !s.escaped
    ensures Scan(s, "\"" + (Escape(raw) + "\"")) == Push(s, "\"" + (Escape(raw) + "\""))
  {
    var open := Push(s, "\"").(quoted := true);
    ScanConcat(s, "\"", Escape(raw) + "\"");
    ScanChar(s, '\"');
    ScanConcat(open, Escape(raw), "\"");
    ScanEscaped(open, raw);
    ScanChar(Push(open, Escape(raw)), '\"');
    PushConcat(s, "\"", Escape(raw) + "\"");
    PushConcat(Push(s, "\""), Escape(raw), "\"");
  }

  lemma ScanField(s: Scanner, f: Field)
    requires !s.quoted && !s.escaped && WellFormed(f)
    ensures Scan(s, Print(f)) == Push(s, Print(f))
  {
    match f
    case Plain(key, token) =>
      ScanHarmless(s, Print(f));
    case Quoted(key, raw) =>
      var head, quotation := key + "=", "\"" + (Escape(raw) + "\"");
      ScanConcat(s, head, quotation);
      ScanHarmless(s, head);
      ScanQuotation(Push(s, head), raw);
      PushConcat(s, head, quotation);
  }

  lemma ScanSeparator(s: Scanner)
    requires !s.quoted && !s.escaped
    ensures Scan(s, ", ") == Scanner(s.parts + [s.current], " ", false, false)
  {
    TwoChars(',', ' ');
    ScanConcat(s, [','], [' ']);
    ScanChar(s, ',');
    ScanChar(StepChar(s, ','), ' ');
  }

  lemma TwoChars(a: char, b: char)
    ensures [a, b] == [a] + [b]
  {
  }

  lemma ParsePartsLast(parts: seq<string>, part: string, key: string, value: string)
    requires ParsePart(part) == Some((key, value))
    ensures ParseParts(parts + [part]) == ParseParts(parts)[key := value]
  {
    assert (parts + [part])[..|parts|] == parts;
  }

  lemma {:induction false} ScanFields(fields: seq<Field>)
    requires fields != [] && forall i :: 0 <= i < |fields| ==> WellFormed(fields[i])
    ensures var s := Scan(Scanner([], [], false, false), Join(PrintAll(fields), ", "));
            !s.quoted && !s.escaped && ParseParts(s.parts + [s.current]) == Expected(fields)
  {
    var n, start := |fields| - 1, Scanner([], [], false, false);
    var last := fields[n];
    PartIsField(last, "");
    PartIsField(last, " ");
    if n == 0 {
      ScanField(start, last);
      assert Push(start, Print(last)) == Scanner([], "" + Print(last), false, false);
      ParsePartsLast([], "" + Print(last), last.key, ValueOf(last));
      assert fields[..0] == [];
    } else {
      var before := fields[..n];
      ScanFields(before);
      var s := Scan(start, Join(PrintAll(before), ", "));
      JoinLast(fields);
      ScanConcat(start, Join(PrintAll(before), ", "), ", " + Print(last));
      ScanConcat(s, ", ", Print(last));
      ScanSeparator(s);
      ScanField(Scanner(s.parts + [s.current], " ", false, false), last);
      ParsePartsLast(s.parts + [s.current], " " + Print(last), last.key, ValueOf(last));
    }
  }

  lemma JoinLast(fields: seq<Field>)
    requires |fields| > 1
    ensures var n := |fields| - 1;
            Join(PrintAll(fields), ", ") == Join(PrintAll(fields[..n]), ", ") + (", " + Print(fields[n]))
  {
    assert PrintAll(fields)[..|fields| - 1] == PrintAll(fields[..|fields| - 1]);
  }

  // A printed field, with or without the space before it, reads as its key and
  // value.
  lemma PartIsField(f: Field, lead: string)
    requires WellFormed(f) && (lead == "" || lead == " ")
    ensures ParsePart(lead + Print(f)) == Some((f.key, ValueOf(f)))
  {
    match f
    case Plain(key, token) =>
      PairReads(key, token, lead);
      UnquoteBare(token);
    case Quoted(key, raw) =>
      var v := "\"" + (Escape(raw) + "\"");
      PairReads(key, v, lead);
      AppendAssociates(key, "=", v);
      UnquoteQuotation(Escape(raw));
  }

  lemma UnquoteBare(token: string)
    requires Bare(token)
    ensures Unquote(token) == token
  {
  }

  lemma UnquoteQuotation(text: string)
    ensures Unquote("\"" + (text + "\"")) == text
  {
    var v := "\"" + (text + "\"");
    assert v[1..|v| - 1] == text;
  }

  lemma PairReads(key: string, v: string, lead: string)
    requires Bare(key) && Lower(key) == key && (lead == "" || lead == " ")
    requires v != [] && !IsSpace(v[0]) && !IsSpace(v[|v| - 1])
    ensures ParsePart(lead + (key + ("=" + v))) == Some((key, Unquote(v)))
  {
    CutAt(key, v);
    TrimOutside(key + ("=" + v), lead);
    TrimInside(key);
    TrimInside(v);
  }

  lemma CutAt(key: string, v: string)
    requires Bare(key) && v != []
    ensures var p := key + ("=" + v);
            && Find(p, '=') == |key| < |p| && p[..|key|] == key && p[|key| + 1..] == v
            && p[0] == key[0] && p[|p| - 1] == v[|v| - 1]
  {
    var p := key + ("=" + v);
    forall j | 0 <= j < |key|
      ensures p[j] != '='
    {
      assert p[j] == key[j] && Harmless(key[j]);
    }
    FindIs(p, '=', |key|);
  }

  lemma TrimInside(t: string)
    requires t != [] && !IsSpace(t[0]) && !IsSpace(t[|t| - 1])
    ensures Trim(t) == t
  {
  }

  lemma TrimOutside(t: string, lead: string)
    requires t != [] && !IsSpace(t[0]) && !IsSpace(t[|t| - 1]) && (lead == "" || lead == " ")
    ensures Trim(lead + t) == t
  {
    TrimInside(t);
    if lead == "" {
      assert lead + t == t;
    } else {
      assert (lead + t)[1..] == t;
    }
  }

  lemma {:induction false} FindIs(s: string, c: char, k: nat)
    requires k < |s| && s[k] == c && forall j :: 0 <= j < k ==> s[j] != c
    ensures Find(s, c) == k
  {
    if k > 0 {
      FindIs(s[1..], c, k - 1);
    }
  }

  // Parsing what is printed gives back exactly the printed keys, each with its
  // token or its escaped text, whatever the texts are.
  lemma ParseInvertsPrint(fields: seq<Field>)
    requires fields != [] && forall i :: 0 <= i < |fields| ==> WellFormed(fields[i])
    ensures Parse(Join(PrintAll(fields), ", ")) == Expected(fields)
  {
    ScanFields(fields);
  }

  lemma {:induction false} ExpectedLookup(fields: seq<Field>, i: nat)
    requires i < |fields| && forall j :: i < j < |fields| ==> fields[j].key != fields[i].key
    ensures fields[i].key in Expected(fields) && Expected(fields)[fields[i].key] == ValueOf(fields[i])
  {
    if i < |fields| - 1 {
      ExpectedLookup(fields[..|fields| - 1], i);
    }
  }

  lemma {:induction false} ExpectedKeys(fields: seq<Field>, key: string)
    requires key in Expected(fields)
    ensures exists i :: 0 <= i < |fields| && fields[i].key == key
  {
    var n := |fields| - 1;
    if fields[n].key != key {
      ExpectedKeys(fields[..n], key);
      var i :| 0 <= i < n && fields[..n][i].key == key;
      assert fields[i].key == key;
    }
  }

  // What a receiver makes of a quoted string (section 5.6.4 of RFC 9110).
  function Unescape(v: string): string {
    if v == [] then []
    else if v[0] == '\\' && |v| > 1 then [v[1]] + Unescape(v[2..])
    else [v[0]] + Unescape(v[1..])
  }

  lemma {:induction false} EscapeFirst(c: char, v: string)
    ensures Escape([c] + v) == EscapeChar(c) + Escape(v)
    decreases |v|
  {
    if v == [] {
      EscapeLast([], c);
      assert [c] + v == [] + [c] && EscapeChar(c) + Escape(v) == Escape([]) + EscapeChar(c);
    } else {
      var n := |v| - 1;
      EscapeFirst(c, v[..n]);
      EscapeBack([c], v);
      EscapeBack([], v);
      assert [] + v == v && [] + v[..n] == v[..n];
      AppendAssociates(EscapeChar(c), Escape(v[..n]), EscapeChar(v[n]));
    }
  }

  lemma EscapeBack(u: string, v: string)
    requires v != []
    ensures Escape(u + v) == Escape(u + v[..|v| - 1]) + EscapeChar(v[|v| - 1])
  {
    var front, last := v[..|v| - 1], v[|v| - 1];
    EscapeLast(u + front, last);
    AppendAssociates(u, front, [last]);
    assert front + [last] == v;
  }

  lemma {:induction false} UnescapeInvertsEscape(v: string)
    ensures Unescape(Escape(v)) == v
  {
    if v != [] {
      EscapeFirst(v[0], v[1..]);
      UnescapeInvertsEscape(v[1..]);
      assert v == [v[0]] + v[1..];
      var e := EscapeChar(v[0]) + Escape(v[1..]);
      assert e[|EscapeChar(v[0])|..] == Escape(v[1..]);
    }
  }

  // ---- The authorization header ----

  function Get(params: Params, key: string): string {
    if key in params then params[key] else ""
  }

  predicate OffersAuth(qop: string) {
    exists i :: 0 <= i < |Split(qop, ',')| && Lower(Trim(Split(qop, ',')[i])) == "auth"
  }

  function HeaderError(challenge: string): Option<DigestError> {
    var t := Trim(challenge);
    if |t| < 7 || Lower(t[..7]) != "digest " then Some(NotDigest)
    else
      var params := Parse(t[7..]);
      if Get(params, "realm") == "" || Get(params, "nonce") == "" then Some(NoRealmOrNonce)
      else
        var algorithm := Lower(Get(params, "algorithm"));
        if algorithm != "" && algorithm != "md5" && algorithm != "md5-sess"
        then Some(UnsupportedAlgorithm(Get(params, "algorithm")))
        else None
  }

  function Response(params: Params, username: string, password: string, verb: string, uri: string, cnonce: string,
                    md5: string -> seq<Byte>): string
  {
    var nonce := Get(params, "nonce");
    var plain := Hex(md5(username + ":" + Get(params, "realm") + ":" + password));
    var ha1 := if Lower(Get(params, "algorithm")) == "md5-sess" then Hex(md5(plain + ":" + nonce + ":" + cnonce))
               else plain;
    var ha2 := Hex(md5(verb + ":" + uri));
    if OffersAuth(Get(params, "qop")) then Hex(md5(ha1 + ":" + nonce + ":00000001:" + cnonce + ":auth:" + ha2))
    else Hex(md5(ha1 + ":" + nonce + ":" + ha2))
  }

  function FixedFields(params: Params, username: string, uri: string, response: string): seq<Field> {
    [Quoted("username", username), Quoted("realm", Get(params, "realm")), Quoted("nonce", Get(params, "nonce")),
     Quoted("uri", uri), Quoted("response", response)]
  }

  function AlgorithmFields(params: Params): seq<Field> {
    if Get(params, "algorithm") != "" then [Plain("algorithm", Get(params, "algorithm"))] else []
  }

  function OpaqueFields(params: Params): seq<Field> {
    if Get(params, "opaque") != "" then [Quoted("opaque", Get(params, "opaque"))] else []
  }

  function AuthFields(params: Params, cnonce: string): seq<Field> {
    if OffersAuth(Get(params, "qop")) then [Plain("qop", "auth"), Plain("nc", "00000001"), Quoted("cnonce", cnonce)]
    else []
  }

  function HeaderFields(params: Params, username: string, uri: string, response: string, cnonce: string): seq<Field> {
    FixedFields(params, username, uri, response) + AlgorithmFields(params) + OpaqueFields(params)
      + AuthFields(params, cnonce)
  }

  // The header's keys in the order they are printed.
  function Rank(key: string): nat {
    if key == "username" then 0 else if key == "realm" then 1 else if key == "nonce" then 2 else if key == "uri" then 3
    else if key == "response" then 4 else if key == "algorithm" then 5 else if key == "opaque" then 6
    else if key == "qop" then 7 else if key == "nc" then 8 else 9
  }

  ghost predicate Ranked(fields: seq<Field>, lo: nat, hi: nat) {
    && (forall i :: 0 <= i < |fields| ==> WellFormed(fields[i]) && lo <= Rank(fields[i].key) < hi)
    && (forall i, j :: 0 <= i < j < |fields| ==> Rank(fields[i].key) < Rank(fields[j].key))
  }

  lemma RankedConcat(a: seq<Field>, b: seq<Field>, lo: nat, mid: nat, hi: nat)
    requires Ranked(a, lo, mid) && Ranked(b, mid, hi) && lo <= mid <= hi
    ensures Ranked(a + b, lo, hi)
  {
  }

  predicate Word(s: string) {
    s != [] && forall i :: 0 <= i < |s| ==> 'a' <= s[i] <= 'z'
  }

  lemma WordIsKey(s: string)
    requires Word(s)
    ensures Bare(s) && Lower(s) == s
  {
  }

  lemma KeysAreWords()
    ensures Word("username") && Word("realm") && Word("nonce") && Word("uri") && Word("response")
    ensures Word("algorithm") && Word("opaque") && Word("qop") && Word("nc") && Word("cnonce") && Word("auth")
  {
  }

  lemma FixedRanked(params: Params, username: string, uri: string, response: string)
    ensures Ranked(FixedFields(params, username, uri, response), 0, 5)
  {
    KeysAreWords();
    var fields := FixedFields(params, username, uri, response);
    forall i | 0 <= i < |fields|
      ensures WellFormed(fields[i]) && Rank(fields[i].key) == i
    {
      WordIsKey(fields[i].key);
    }
  }

  lemma OptionalRanked(params: Params)
    requires Get(params, "algorithm") == "" || Bare(Get(params, "algorithm"))
    ensures Ranked(AlgorithmFields(params), 5, 6) && Ranked(OpaqueFields(params), 6, 7)
  {
    KeysAreWords();
    WordIsKey("algorithm");
    WordIsKey("opaque");
  }

  lemma AuthRanked(params: Params, cnonce: string)
    ensures Ranked(AuthFields(params, cnonce), 7, 10)
  {
    KeysAreWords();
    WordIsKey("auth");
    var fields := AuthFields(params, cnonce);
    forall i | 0 <= i < |fields|
      ensures WellFormed(fields[i]) && Rank(fields[i].key) == 7 + i
    {
      WordIsKey(fields[i].key);
      assert Bare("00000001");
    }
  }

  lemma HeaderFieldsRanked(params: Params, username: string, uri: string, response: string, cnonce: string)
    requires var algorithm := Lower(Get(params, "algorithm"));
             algorithm == "" || algorithm == "md5" || algorithm == "md5-sess"
    ensures Ranked(HeaderFields(params, username, uri, response, cnonce), 0, 10)
  {
    AlgorithmIsBare(Get(params, "algorithm"));
    FixedRanked(params, username, uri, response);
    OptionalRanked(params);
    AuthRanked(params, cnonce);
    var a, b, c := FixedFields(params, username, uri, response), AlgorithmFields(params), OpaqueFields(params);
    RankedConcat(a, b, 0, 5, 6);
    RankedConcat(a + b, c, 0, 6, 7);
    RankedConcat(a + b + c, AuthFields(params, cnonce), 0, 7, 10);
  }

  lemma AlgorithmIsBare(algorithm: string)
    requires Lower(algorithm) == "" || Lower(algorithm) == "md5" || Lower(algorithm) == "md5-sess"
    ensures algorithm == "" || Bare(algorithm)
  {
    forall i | 0 <= i < |algorithm|
      ensures Harmless(algorithm[i])
    {
      assert Lower(algorithm)[i] == LowerChar(algorithm[i]);
    }
  }

  // The header as a receiver's parser sees it: every printed field under its own
  // key, with its escaped text, and no other key.
  lemma HeaderParses(params: Params, username: string, uri: string, response: string, cnonce: string)
    requires var algorithm := Lower(Get(params, "algorithm"));
             algorithm == "" || algorithm == "md5" || algorithm == "md5-sess"
    ensures var fields := HeaderFields(params, username, uri, response, cnonce);
            var seen := Parse(Join(PrintAll(fields), ", "));
            && (forall i :: 0 <= i < |fields| ==> fields[i].key in seen && seen[fields[i].key] == ValueOf(fields[i]))
            && (forall key :: key in seen ==> exists i :: 0 <= i < |fields| && fields[i].key == key)
  {
    var fields := HeaderFields(params, username, uri, response, cnonce);
    HeaderFieldsRanked(params, username, uri, response, cnonce);
    ParseInvertsPrint(fields);
    forall i | 0 <= i < |fields|
      ensures fields[i].key in Expected(fields) && Expected(fields)[fields[i].key] == ValueOf(fields[i])
    {
      ExpectedLookup(fields, i);
    }
    forall key | key in Expected(fields)
      ensures exists i :: 0 <= i < |fields| && fields[i].key == key
    {
      ExpectedKeys(fields, key);
    }
  }

  method DigestAuthorization(challenge: string, username: string, password: string, verb: string, uri: string,
                             cnonceBytes: seq<Byte>, md5: string -> seq<Byte>)
    returns (result: Result<string, DigestError>)
    ensures result.Err? <==> HeaderError(challenge).Some?
    ensures result.Err? ==> HeaderError(challenge) == Some(result.error)
    ensures result.Ok? ==>
              var params, cnonce := Parse(Trim(challenge)[7..]), Hex(cnonceBytes);
              result.value == "Digest " + Join(PrintAll(HeaderFields(params, username, uri,
                Response(params, username, password, verb, uri, cnonce, md5), cnonce)), ", ")
  {
    var t := Trim(challenge);
    if |t| < 7 || Lower(t[..7]) != "digest " {
      return Err(NotDigest);
    }
    var params := ParseDigestParams(t[7..]);
    var realm, nonce := Get(params, "realm"), Get(params, "nonce");
    if realm == "" || nonce == "" {
      return Err(NoRealmOrNonce);
    }
    var algorithm := Lower(Get(params, "algorithm"));
    if algorithm == "" {
      algorithm := "md5";
    }
    if algorithm != "md5" && algorithm != "md5-sess" {
      return Err(UnsupportedAlgorithm(Get(params, "algorithm")));
    }
    var cnonce := Hex(cnonceBytes);
    var response := Respond(params, username, password, verb, uri, cnonce, md5);
    var parts := PrintParts(params, username, uri, response, cnonce);
    return Ok("Digest " + Join(parts, ", "));
  }

  method Respond(params: Params, username: string, password: string, verb: string, uri: string, cnonce: string,
                 md5: string -> seq<Byte>)
    returns (response: string)
    ensures response == Response(params, username, password, verb, uri, cnonce, md5) && NeedsNoEscape(response)
  {
    var realm, nonce := Get(params, "realm"), Get(params, "nonce");
    var ha1 := Hex(md5(username + ":" + realm + ":" + password));
    if Lower(Get(params, "algorithm")) == "md5-sess" {
      ha1 := Hex(md5(ha1 + ":" + nonce + ":" + cnonce));
    }
    var ha2 := Hex(md5(verb + ":" + uri));
    var auth := ChoosesAuth(Get(params, "qop"));
    if auth {
      response := Hex(md5(ha1 + ":" + nonce + ":00000001:" + cnonce + ":auth:" + ha2));
    } else {
      response := Hex(md5(ha1 + ":" + nonce + ":" + ha2));
    }
  }

  method ChoosesAuth(qop: string) returns (auth: bool)
    ensures auth == OffersAuth(qop)
  {
    var candidates := Split(qop, ',');
    for i := 0 to |candidates|
      invariant forall j :: 0 <= j < i ==> Lower(Trim(candidates[j])) != "auth"
    {
      if Lower(Trim(candidates[i])) == "auth" {
        return true;
      }
    }
    return false;
  }

  // The parts list: the response and the client nonce are digits and need no
  // escaping.
  method PrintParts(params: Params, username: string, uri: string, response: string,
                    cnonce: string) returns (parts: seq<string>)
    requires NeedsNoEscape(response) && NeedsNoEscape(cnonce)
    ensures parts == PrintAll(HeaderFields(params, username, uri, response, cnonce))
  {
    EscapeIsIdentityIff(response);
    EscapeIsIdentityIff(cnonce);
    ghost var a, b := FixedFields(params, username, uri, response), AlgorithmFields(params);
    parts := PrintFixed(params, username, uri, response);
    var algorithm := PrintAlgorithm(params);
    PrintConcat(a, b);
    var opaqueParts := PrintOpaque(params);
    PrintConcat(a + b, OpaqueFields(params));
    var auth := PrintAuth(params, cnonce);
    PrintConcat(a + b + OpaqueFields(params), AuthFields(params, cnonce));
    parts := parts + algorithm + opaqueParts + auth;
  }

  method PrintAlgorithm(params: Params) returns (parts: seq<string>)
    ensures parts == PrintAll(AlgorithmFields(params))
  {
    parts := [];
    if Get(params, "algorithm") != "" {
      parts := ["algorithm" + ("=" + Get(params, "algorithm"))];
    }
  }

  method PrintOpaque(params: Params) returns (parts: seq<string>)
    ensures parts == PrintAll(OpaqueFields(params))
  {
    parts := [];
    if Get(params, "opaque") != "" {
      parts := [("opaque" + "=") + ("\"" + (Escape(Get(params, "opaque")) + "\""))];
    }
  }

  method PrintAuth(params: Params, cnonce: string) returns (parts: seq<string>)
    requires Escape(cnonce) == cnonce
    ensures parts == PrintAll(AuthFields(params, cnonce))
  {
    parts := [];
    var auth := ChoosesAuth(Get(params, "qop"));
    if auth {
      parts := ["qop" + ("=" + "auth"), "nc" + ("=" + "00000001"), ("cnonce" + "=") + ("\"" + (cnonce + "\""))];
    }
  }

  lemma PrintConcat(a: seq<Field>, b: seq<Field>)
    ensures PrintAll(a + b) == PrintAll(a) + PrintAll(b)
  {
  }

  method PrintFixed(params: Params, username: string, uri: string, response: string) returns (parts: seq<string>)
    requires Escape(response) == response
    ensures parts == PrintAll(FixedFields(params, username, uri, response))
  {
    parts := [("username" + "=") + ("\"" + (Escape(username) + "\"")),
              ("realm" + "=") + ("\"" + (Escape(Get(params, "realm")) + "\"")),
              ("nonce" + "=") + ("\"" + (Escape(Get(params, "nonce")) + "\"")),
              ("uri" + "=") + ("\"" + (Escape(uri) + "\"")),
              ("response" + "=") + ("\"" + (response + "\""))];
  }
}
