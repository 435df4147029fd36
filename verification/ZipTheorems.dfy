/** What acceptance of an archive tells, and which written archives are accepted. */
module ZipTheorems {
  import opened ZipArchive

  // ---- soundness ------------------------------------------------------------------------------------

  lemma {:induction false} OffsetsAscend(b: seq<Byte>, s: seq<nat>, i: nat, j: nat, start: nat, end: nat, decode: Decoder)
    requires Chain(b, s, start, end, decode) && i < j < |s|
    ensures s[i] + 46 <= s[j]
  {
    assert GoodHeader(b, s[j - 1], start, end, decode);
    if i < j - 1 {
      OffsetsAscend(b, s, i, j - 1, start, end, decode);
    }
  }

  /** Position `x` belongs to the `i`-th header of the directory. */
  predicate Covers(offsets: seq<nat>, i: nat, x: nat) {
    i < |offsets| - 1 && offsets[i] <= x < offsets[i + 1]
  }

  lemma {:induction false} SomeHeaderCovers(offsets: seq<nat>, n: nat, x: nat) returns (i: nat)
    requires n < |offsets| && offsets[0] <= x < offsets[n]
    ensures Covers(offsets, i, x)
    decreases n
  {
    if offsets[n - 1] <= x {
      i := n - 1;
    } else {
      i := SomeHeaderCovers(offsets, n - 1, x);
    }
  }

  lemma OneHeaderCovers(b: seq<Byte>, s: seq<nat>, i: nat, j: nat, x: nat, start: nat, end: nat, decode: Decoder)
    requires Chain(b, s, start, end, decode) && Covers(s, i, x) && Covers(s, j, x)
    ensures i == j
  {
    if i + 1 < j {
      OffsetsAscend(b, s, i + 1, j, start, end, decode);
    } else if j + 1 < i {
      OffsetsAscend(b, s, j + 1, i, start, end, decode);
    }
  }

  /** The headers cover every byte between the directory's start and the end record once, and
      nothing else. */
  lemma HeadersTile(b: seq<Byte>, end: nat, offsets: seq<nat>, decode: Decoder, x: nat)
    requires GoodDirectory(b, end, offsets, decode)
    ensures DirectoryStart(b, end) <= x < end <==> exists i: nat :: Covers(offsets, i, x)
    ensures forall i: nat, j: nat :: Covers(offsets, i, x) && Covers(offsets, j, x) ==> i == j
  {
    var start := DirectoryStart(b, end);
    if start <= x < end {
      var i := SomeHeaderCovers(offsets, |offsets| - 1, x);
    }
    forall i: nat | Covers(offsets, i, x) ensures start <= x < end {
      if i > 0 {
        OffsetsAscend(b, offsets, 0, i, start, end, decode);
      }
      if i + 1 < |offsets| - 1 {
        OffsetsAscend(b, offsets, i + 1, |offsets| - 1, start, end, decode);
      }
    }
    forall i: nat, j: nat | Covers(offsets, i, x) && Covers(offsets, j, x) ensures i == j {
      OneHeaderCovers(b, offsets, i, j, x, start, end, decode);
    }
  }
}
