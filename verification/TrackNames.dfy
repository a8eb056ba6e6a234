// The printed ids of tracks: session, a tag, and the session's running number.
module TrackNames {

  // The session a request without a session id belongs to.
  function SessionKey(sessionId: string): string {
    if sessionId == "" then "default" else sessionId
  }

  function Digit(d: nat): (c: char)
    requires d < 10
  {
    "0123456789"[d]
  }

  // Go's %d of a non-negative number.
  function Decimal(n: nat): (s: string)
    ensures |s| >= 1 && '-' !in s
  {
    if n < 10 then [Digit(n)] else Decimal(n / 10) + [Digit(n % 10)]
  }

  function TrackId(session: string, n: nat): string {
    session + ("-" + Decimal(n))
  }

  function PersonTrackId(session: string, n: nat): string {
    session + ("-P" + Decimal(n))
  }

  // The last digit, and what comes before it.
  lemma DecimalSplits(n: nat)
    ensures var s := Decimal(n);
            && s[|s| - 1] == Digit(n % 10) && (|s| == 1 <==> n < 10)
            && (n >= 10 ==> s[..|s| - 1] == Decimal(n / 10))
  {
  }

  lemma {:induction false} DecimalInjective(a: nat, b: nat)
    requires Decimal(a) == Decimal(b)
    ensures a == b
  {
    DecimalSplits(a);
    DecimalSplits(b);
    if a >= 10 {
      DecimalInjective(a / 10, b / 10);
    }
  }

  // Ids tell both the session and the number, whatever the session names are.
  lemma TrackIdInjective(s: string, m: nat, t: string, n: nat)
    requires TrackId(s, m) == TrackId(t, n)
    ensures s == t && m == n
  {
    LastDash(s, Decimal(m), t, Decimal(n));
    DecimalInjective(m, n);
  }

  lemma NoShorter(s: string, x: string, t: string, y: string)
    requires '-' !in x && s + ("-" + x) == t + ("-" + y)
    ensures |s| >= |t|
  {
    var u := s + ("-" + x);
    forall j | |s| < j < |u|
      ensures u[j] != '-'
    {
      assert u[j] == x[j - |s| - 1] && x[j - |s| - 1] in x;
    }
    assert (t + ("-" + y))[|t|] == '-';
  }

  lemma LastDash(s: string, x: string, t: string, y: string)
    requires '-' !in x && '-' !in y && s + ("-" + x) == t + ("-" + y)
    ensures s == t && x == y
  {
    NoShorter(s, x, t, y);
    NoShorter(t, y, s, x);
    var u, v := s + ("-" + x), t + ("-" + y);
    assert s == u[..|s|] && t == v[..|s|];
    assert x == u[|s| + 1..] && y == v[|s| + 1..];
  }

  lemma PersonTrackIdInjective(s: string, m: nat, n: nat)
    requires PersonTrackId(s, m) == PersonTrackId(s, n)
    ensures m == n
  {
    var u := PersonTrackId(s, m);
    assert u[|s| + 2..] == Decimal(m) && u[|s| + 2..] == Decimal(n);
    DecimalInjective(m, n);
  }
}
