// Which reads the two JPEG scanners look at (internal/web/camera_stream_pool.go,
// internal/web/cameras.go, internal/cameraio/cameraio.go).
module JpegReads {
  import opened JpegStream
  import opened FirstJpeg

  function AllData(input: seq<Read>): Bytes {
    if input == [] then [] else input[0].data + AllData(input[1..])
  }

  // The scanner reads on while less than the limit has come, and stops at the first
  // read that reports the end or a failure.
  ghost predicate LooksAt(input: seq<Read>, limit: int, n: nat) {
    && n <= |input|
    && (forall m: nat :: m < n ==> |AllData(input[..m])| < limit)
    && (forall m: nat :: m + 1 < n ==> input[m].status.More?)
    && (n == |input| || |AllData(input[..n])| >= limit || (n > 0 && !input[n - 1].status.More?))
  }

  ghost predicate ReadsAre(input: seq<Read>, limit: int, n: nat) {
    && LooksAt(input, limit, n) && Scanned(input, limit) == AllData(input[..n])
    && (Fails(input, limit) <==> n > 0 && input[n - 1].status.Failed?)
  }

  // What is looked at is the data of those reads, and the scan fails if the last of
  // them does.
  lemma {:induction false} ScannedMeans(input: seq<Read>, limit: int)
    ensures exists n: nat :: ReadsAre(input, limit, n)
    decreases |input|
  {
    if limit <= 0 || input == [] {
      assert ReadsAre(input, limit, 0);
    } else if input[0].status.More? {
      ScannedMeans(input[1..], limit - |input[0].data|);
      var k: nat :| ReadsAre(input[1..], limit - |input[0].data|, k);
      LooksFurther(input, limit, k);
    } else {
      assert input[..1][1..] == [] && input[0].data + [] == input[0].data;
      assert ReadsAre(input, limit, 1);
    }
  }

  lemma DataEarlier(input: seq<Read>, m: nat)
    requires m < |input|
    ensures AllData(input[..m + 1]) == input[0].data + AllData(input[1..][..m])
  {
    assert input[..m + 1][1..] == input[1..][..m];
  }

  lemma LooksFurther(input: seq<Read>, limit: int, k: nat)
    requires input != [] && limit > 0 && input[0].status.More?
    requires ReadsAre(input[1..], limit - |input[0].data|, k)
    ensures ReadsAre(input, limit, k + 1)
  {
    forall m: nat | m < k + 1
      ensures |AllData(input[..m])| < limit
    {
      if m > 0 {
        DataEarlier(input, m - 1);
      } else {
        assert input[..m] == [];
      }
    }
    DataEarlier(input, k);
    if k > 0 {
      assert input[1..][k - 1] == input[k];
    }
  }

  // The reads are made up to the first that reports the end or a failure.
  ghost predicate MadeReads(input: seq<Read>, n: nat) {
    && n <= |input| && (forall j: nat :: j + 1 < n ==> input[j].status.More?)
    && (n == |input| || (n > 0 && !input[n - 1].status.More?))
  }

  ghost predicate EndsWith(input: seq<Read>, n: nat) {
    && MadeReads(input, n) && Delivered(input) == AllData(input[..n])
    && AsOutcome(LastStatus(input)) ==
       if n == 0 || input[n - 1].status == More then Cancelled
       else if input[n - 1].status == EndOfFile then AtEnd else ReadFailed
  }

  // The stream is the data of the reads made, and it ends as the last of them says.
  lemma {:induction false} DeliveredMeans(input: seq<Read>)
    ensures exists n: nat :: EndsWith(input, n)
  {
    if input == [] {
      assert EndsWith(input, 0);
    } else if input[0].status.More? {
      var rest := input[1..];
      DeliveredMeans(rest);
      var k: nat :| EndsWith(rest, k);
      OneReadEarlier(input, k);
    } else {
      assert input[..1][1..] == [] && input[0].data + [] == input[0].data;
      assert EndsWith(input, 1);
    }
  }

  lemma OneReadEarlier(input: seq<Read>, k: nat)
    requires input != [] && input[0].status.More? && EndsWith(input[1..], k)
    ensures EndsWith(input, k + 1)
  {
    assert input[..k + 1][1..] == input[1..][..k];
    if k > 0 {
      assert input[1..][k - 1] == input[k];
    }
  }
}
