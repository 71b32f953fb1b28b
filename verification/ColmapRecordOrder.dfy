/** Every file that parses is a count, that many self-delimiting records, and ignored bytes;
    and permuting the records does not change the parsed model when the ids are distinct. */
module ColmapRecordOrder {
  import opened Wrappers
  import opened Collections
  import opened LittleEndian
  import opened ColmapFormat

  /** Whatever the parser accepts starts with a non-empty chunk that is one record. */
  ghost predicate Local<T>(p: seq<byte> -> Parsed<T>) {
    forall s :: p(s).Got? ==> exists c :: Splits(p, s, c)
  }

  ghost predicate Splits<T>(p: seq<byte> -> Parsed<T>, s: seq<byte>, c: seq<byte>) {
    p(s).Got? && c != [] && s == c + p(s).rest && IsRecord(p, c, p(s).value)
  }

  // --------------------------------------------------------------------------- fields

  lemma LocalU32(s: seq<byte>)
    requires ParseU32(s).Got?
    ensures Splits(ParseU32, s, s[..4])
  {
    forall tail
      ensures ParseU32(s[..4] + tail) == Got(ParseU32(s).value, tail)
    {
      PrefixOfConcat(s[..4], tail);
    }
  }

  lemma LocalU64(s: seq<byte>)
    requires ParseU64(s).Got?
    ensures Splits(ParseU64, s, s[..8])
  {
    forall tail
      ensures ParseU64(s[..8] + tail) == Got(ParseU64(s).value, tail)
    {
      PrefixOfConcat(s[..8], tail);
    }
  }

  lemma LocalText(s: seq<byte>) returns (c: seq<byte>)
    requires ParseText(s).Got?
    ensures Splits(ParseText, s, c)
  {
    var n, t := ParseU32(s).value, ParseU32(s).rest;
    LocalU32(s);
    c := s[..4] + t[..n];
    Regroup(s[..4], t[..n], t[n..]);
    forall tail
      ensures ParseText(c + tail) == Got(t[..n], tail)
    {
      Regroup(s[..4], t[..n], tail);
      PrefixOfConcat(t[..n], tail);
    }
  }

  lemma {:induction false} LocalDoubles(n: nat, s: seq<byte>) returns (c: seq<byte>)
    requires ParseDoubles(n, s).Got?
    ensures s == c + ParseDoubles(n, s).rest
    ensures forall tail :: ParseDoubles(n, c + tail) == Got(ParseDoubles(n, s).value, tail)
  {
    if n == 0 {
      c := [];
      assert forall tail: seq<byte> :: [] + tail == tail;
    } else {
      var t := ParseU64(s).rest;
      LocalU64(s);
      var d := LocalDoubles(n - 1, t);
      c := s[..8] + d;
      Regroup(s[..8], d, ParseDoubles(n, s).rest);
      forall tail
        ensures ParseDoubles(n, c + tail) == Got(ParseDoubles(n, s).value, tail)
      {
        Regroup(s[..8], d, tail);
      }
    }
  }

  lemma LocalSkip(n: nat, s: seq<byte>) returns (c: seq<byte>)
    requires SkipPoints(n, s).Got?
    ensures s == c + SkipPoints(n, s).rest
    ensures forall tail :: SkipPoints(n, c + tail) == Got((), tail)
  {
    c := s[..24 * n];
    forall tail
      ensures SkipPoints(n, c + tail) == Got((), tail)
    {
      SkipAll(c, n, tail);
    }
  }

  lemma {:induction false} LocalMany<T>(p: seq<byte> -> Parsed<T>, n: nat, s: seq<byte>)
    returns (chunks: seq<seq<byte>>)
    requires Local(p) && ParseMany(p, n, s).Got?
    ensures AreRecords(p, chunks, ParseMany(p, n, s).value)
    ensures s == Join(chunks) + ParseMany(p, n, s).rest
  {
    if n == 0 {
      chunks := [];
      assert [] + s == s;
    } else {
      var c :| Splits(p, s, c);
      var rest := LocalMany(p, n - 1, p(s).rest);
      chunks := [c] + rest;
      assert chunks[1..] == rest;
      Regroup(c, Join(rest), ParseMany(p, n, s).rest);
    }
  }

  // -------------------------------------------------------------------------- records

  lemma LocalTrack()
    ensures Local(ParseTrack)
  {
    forall s | ParseTrack(s).Got?
      ensures exists c :: Splits(ParseTrack, s, c)
    {
      var t := ParseU32(s).rest;
      LocalU32(s);
      LocalU32(t);
      var c := s[..4] + t[..4];
      Regroup(s[..4], t[..4], t[4..]);
      forall tail
        ensures ParseTrack(c + tail) == Got(ParseTrack(s).value, tail)
      {
        Regroup(s[..4], t[..4], tail);
      }
      assert Splits(ParseTrack, s, c);
    }
  }

  lemma CameraSplits(s0: seq<byte>) returns (c: seq<byte>)
    requires ParseCamera(s0).Got?
    ensures Splits(ParseCamera, s0, c)
  {
    var id, s1 := ParseU32(s0).value, ParseU32(s0).rest;
    var bits, s2 := ParseU32(s1).value, ParseU32(s1).rest;
    var info := ModelInfo(Signed32(bits)).value;
    var width, s3 := ParseU64(s2).value, ParseU64(s2).rest;
    var height, s4 := ParseU64(s3).value, ParseU64(s3).rest;
    var params, s5 := ParseDoubles(info.numParams, s4).value, ParseDoubles(info.numParams, s4).rest;
    TableSizes(Signed32(bits), info);
    LocalU32(s0);
    LocalU32(s1);
    LocalU64(s2);
    LocalU64(s3);
    var d := LocalDoubles(info.numParams, s4);
    c := Five(s0[..4], s1[..4], s2[..8], s3[..8], d);
    FiveThen(s0[..4], s1[..4], s2[..8], s3[..8], d, s5);
    forall tail
      ensures ParseCamera(c + tail) == Got(ParseCamera(s0).value, tail)
    {
      CameraReplays(s0[..4], id, s1[..4], bits, s2[..8], width, s3[..8], height, d, info, params, tail);
    }
  }

  lemma NameAndPointsSplit(s0: seq<byte>) returns (c: seq<byte>)
    requires ParseNameAndPoints(s0).Got?
    ensures Splits(ParseNameAndPoints, s0, c)
  {
    var s1 := ParseText(s0).rest;
    var n, s2 := ParseU64(s1).value, ParseU64(s1).rest;
    var a := LocalText(s0);
    LocalU64(s1);
    var b := s1[..8];
    var e := LocalSkip(n, s2);
    c := a + (b + e);
    Regroup(a, b + e, SkipPoints(n, s2).rest);
    Regroup(b, e, SkipPoints(n, s2).rest);
    forall tail
      ensures ParseNameAndPoints(c + tail) == Got(ParseNameAndPoints(s0).value, tail)
    {
      Regroup(a, b + e, tail);
      Regroup(b, e, tail);
    }
  }

  lemma ImageSplits(s0: seq<byte>) returns (c: seq<byte>)
    requires ParseImage(s0).Got?
    ensures Splits(ParseImage, s0, c)
  {
    var id, s1 := ParseU32(s0).value, ParseU32(s0).rest;
    var q, s2 := ParseDoubles(4, s1).value, ParseDoubles(4, s1).rest;
    var t, s3 := ParseDoubles(3, s2).value, ParseDoubles(3, s2).rest;
    var cam, s4 := ParseU32(s3).value, ParseU32(s3).rest;
    var name, s5 := ParseNameAndPoints(s4).value, ParseNameAndPoints(s4).rest;
    LocalU32(s0);
    var c1 := LocalDoubles(4, s1);
    var c2 := LocalDoubles(3, s2);
    LocalU32(s3);
    var c4 := NameAndPointsSplit(s4);
    c := Five(s0[..4], c1, c2, s3[..4], c4);
    FiveThen(s0[..4], c1, c2, s3[..4], c4, s5);
    forall tail
      ensures ParseImage(c + tail) == Got(ParseImage(s0).value, tail)
    {
      ImageReplays(s0[..4], id, c1, q, c2, t, s3[..4], cam, c4, name, tail);
    }
  }

  lemma LocalColor(s: seq<byte>)
    requires ParseColor(s).Got?
    ensures |s| >= 3 && Splits(ParseColor, s, s[..3])
  {
    var c := s[..3];
    forall tail
      ensures ParseColor(c + tail) == Got(ParseColor(s).value, tail)
    {
      assert (c + tail)[1..][1..][1..] == tail;
    }
    assert s[1..][1..][1..] == s[3..];
  }

  lemma TracksSplit(s: seq<byte>) returns (c: seq<byte>)
    requires ParseTracks(s).Got?
    ensures Splits(ParseTracks, s, c)
  {
    var n, s1 := ParseU64(s).value, ParseU64(s).rest;
    LocalU64(s);
    LocalTrack();
    var chunks := LocalMany(ParseTrack, n, s1);
    c := s[..8] + Join(chunks);
    Regroup(s[..8], Join(chunks), ParseTracks(s).rest);
    forall tail
      ensures ParseTracks(c + tail) == Got(ParseTracks(s).value, tail)
    {
      Regroup(s[..8], Join(chunks), tail);
      ParseManyRecords(ParseTrack, chunks, ParseTracks(s).value, tail);
    }
  }

  lemma PointSplits(s0: seq<byte>) returns (c: seq<byte>)
    requires ParsePoint(s0).Got?
    ensures Splits(ParsePoint, s0, c)
  {
    var id, s1 := ParseU64(s0).value, ParseU64(s0).rest;
    var xyz, s2 := ParseDoubles(3, s1).value, ParseDoubles(3, s1).rest;
    var color, s3 := ParseColor(s2).value, ParseColor(s2).rest;
    var error, s4 := ParseU64(s3).value, ParseU64(s3).rest;
    var track, s5 := ParseTracks(s4).value, ParseTracks(s4).rest;
    LocalU64(s0);
    var c1 := LocalDoubles(3, s1);
    LocalColor(s2);
    LocalU64(s3);
    var c4 := TracksSplit(s4);
    c := Five(s0[..8], c1, s2[..3], s3[..8], c4);
    FiveThen(s0[..8], c1, s2[..3], s3[..8], c4, s5);
    forall tail
      ensures ParsePoint(c + tail) == Got(ParsePoint(s0).value, tail)
    {
      PointReplays(s0[..8], id, c1, xyz, s2[..3], color, s3[..8], error, c4, track, tail);
    }
  }

  lemma ParsersAreLocal()
    ensures Local(ParseCamera) && Local(ParseImage) && Local(ParsePoint)
  {
    forall s | ParseCamera(s).Got?
      ensures exists c :: Splits(ParseCamera, s, c)
    {
      var c := CameraSplits(s);
    }
    forall s | ParseImage(s).Got?
      ensures exists c :: Splits(ParseImage, s, c)
    {
      var c := ImageSplits(s);
    }
    forall s | ParsePoint(s).Got?
      ensures exists c :: Splits(ParsePoint, s, c)
    {
      var c := PointSplits(s);
    }
  }

  // ---------------------------------------------------------------------------- files

  /** A file that parses is its count, that many records, and ignored bytes. */
  lemma FileDecomposes<T>(p: seq<byte> -> Parsed<T>, file: seq<byte>, vs: seq<T>)
    returns (chunks: seq<seq<byte>>, junk: seq<byte>)
    requires Local(p) && ParseFile(p, file) == Some(vs)
    ensures AreRecords(p, chunks, vs) && |vs| < 0x1_0000_0000_0000_0000
    ensures file == Bytes(|vs|, 8) + (Join(chunks) + junk)
  {
    var n, s := ParseU64(file).value, ParseU64(file).rest;
    chunks := LocalMany(p, n, s);
    junk := ParseMany(p, n, s).rest;
    BytesOfNumber(file[..8]);
    assert file == file[..8] + file[8..];
  }

  datatype Record<T> = Record(chunk: seq<byte>, value: T)

  function ChunkOf<T>(r: Record<T>): seq<byte> { r.chunk }

  function ValueOf<T>(r: Record<T>): T { r.value }

  function Chunked<T>(rs: seq<Record<T>>): seq<seq<byte>> {
    Mapped((r: Record<T>) => ChunkOf(r), rs)
  }

  function Values<T>(rs: seq<Record<T>>): seq<T> {
    Mapped((r: Record<T>) => ValueOf(r), rs)
  }

  /** Two files with the same records in any two orders, and any trailing bytes, parse to
      lists that sort to the same list when the ids are distinct. */
  lemma RecordOrderIrrelevant<T>(p: seq<byte> -> Parsed<T>, key: T -> int, a: seq<Record<T>>, b: seq<Record<T>>,
                                 junkA: seq<byte>, junkB: seq<byte>)
    requires multiset(a) == multiset(b) && |a| < 0x1_0000_0000_0000_0000
    requires AreRecords(p, Chunked(a), Values(a)) && DistinctBy(Values(a), key)
    ensures ParseFile(p, Bytes(|a|, 8) + (Join(Chunked(a)) + junkA)) == Some(Values(a))
    ensures ParseFile(p, Bytes(|b|, 8) + (Join(Chunked(b)) + junkB)) == Some(Values(b))
    ensures SortBy(Values(a), key) == SortBy(Values(b), key)
  {
    SameLength(a, b);
    forall i | 0 <= i < |b|
      ensures IsRecord(p, Chunked(b)[i], Values(b)[i]) && Chunked(b)[i] != []
    {
      SameElementsMember(a, b, b[i]);
      var j :| 0 <= j < |a| && a[j] == b[i];
      assert IsRecord(p, Chunked(a)[j], Values(a)[j]);
    }
    ParseFileRecords(p, Chunked(a), Values(a), junkA);
    ParseFileRecords(p, Chunked(b), Values(b), junkB);
    MappedPermutation((r: Record<T>) => ValueOf(r), a, b);
    SortByPermutation(Values(a), Values(b), key);
  }
}
