/** pkg/controller/controlplane/valuesprovider.go: the cluster id and its shortened form for the CSI driver. */
module ClusterIds {
  import opened Numerals

  type uint64 = x: nat | x < 0x1_0000_0000_0000_0000

  /** A byte string, or one of the two panics: a maximum below 16, and a slice beyond the end of the id. */
  datatype Shortened = Text(id: string) | MaxlenPanic | SlicePanic

  /** The 64-bit hash is a parameter. */
  function ShortenID(hash: string -> uint64, id: string, maxlen: int): Shortened {
    if maxlen < 16 then MaxlenPanic
    else if |id| <= maxlen then Text(id)
    else
      var hashstr := Format(hash(id), 36);
      var cut := 62 - |hashstr|;
      if 0 <= cut <= |id| then Text(id[..cut] + "-" + hashstr) else SlicePanic
  }

  function CalcClusterID(namespace: string, gardenID: string): string {
    namespace + "-" + gardenID
  }

  function CalcCsiClusterID(hash: string -> uint64, namespace: string, gardenID: string): Shortened {
    ShortenID(hash, CalcClusterID(namespace, gardenID), 63)
  }

  lemma ThirteenDigits()
    ensures Pow36(13) == 170581728179578208256
  {
    assert Pow36(4) == 36 * (36 * (36 * (36 * Pow36(0))));
    assert Pow36(8) == 36 * (36 * (36 * (36 * Pow36(4))));
    assert Pow36(12) == 36 * (36 * (36 * (36 * Pow36(8))));
  }

  /** The base 36 form of a 64-bit value has 1 to 13 digits. */
  lemma HashDigits(h: uint64)
    ensures 1 <= |Format(h, 36)| <= 13
  {
    ThirteenDigits();
    FormatLength36(h, 13);
  }

  /** For every id and maximum: below 16 it panics at once; otherwise ids within the maximum are unchanged, and a longer
      one becomes 63 bytes, its own beginning, a dash and its hash in base 36, or the slice runs out of range when it is
      too short for that. So the result fits exactly when the id did or the maximum is at least 63. */
  lemma ShortenIDExactly(hash: string -> uint64, id: string, maxlen: int)
    ensures
      var r := ShortenID(hash, id, maxlen);
      var h := Format(hash(id), 36);
      && (r == MaxlenPanic <==> maxlen < 16)
      && (r == SlicePanic <==> 16 <= maxlen < |id| && |id| + |h| < 62)
      && (16 <= maxlen && |id| <= maxlen ==> r == Text(id))
      && (16 <= maxlen < |id| && r.Text? ==>
            |r.id| == 63 && r.id == id[..62 - |h|] + "-" + h && Value(h, 36) == hash(id))
      && (16 <= maxlen ==> (r.Text? && |r.id| <= maxlen <==> |id| <= maxlen || maxlen >= 63))
  {
    HashDigits(hash(id));
    RoundTrip(hash(id), 36);
  }

  /** The CSI cluster id always exists and has at most 63 bytes; shortening it again changes nothing, and neither does
      shortening an id that fits. */
  lemma CsiClusterIDFits(hash: string -> uint64, namespace: string, gardenID: string)
    ensures
      var r := CalcCsiClusterID(hash, namespace, gardenID);
      && r.Text? && |r.id| <= 63
      && ShortenID(hash, r.id, 63) == r
      && (|namespace| + 1 + |gardenID| <= 63 <==> r.id == namespace + "-" + gardenID)
  {
    ShortenIDExactly(hash, CalcClusterID(namespace, gardenID), 63);
  }
}
