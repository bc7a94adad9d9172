/** One small buffer, byte by byte: what the accessors read of it, and that the verifier accepts it. */
module FlatExample {
  import opened Options
  import opened Bytes
  import opened FlatReader
  import opened FlatVerifier

  /** The root's offset, a vtable of one field, padding, and a table whose field is the number 7. */
  function Sample(): (b: seq<byte>)
    ensures |b| == 20
    ensures b[0..4] == [12, 0, 0, 0] && b[4..6] == [6, 0] && b[6..8] == [8, 0] && b[8..10] == [4, 0]
    ensures b[12..16] == [8, 0, 0, 0] && b[16..20] == [7, 0, 0, 0]
  {
    [12, 0, 0, 0, 6, 0, 8, 0, 4, 0, 0, 0, 8, 0, 0, 0, 7, 0, 0, 0]
  }

  lemma SampleNumbers()
    ensures ReadUInt(Sample(), 0, 4) == Some(12) && ReadInt32(Sample(), 12) == Some(8)
    ensures ReadUInt(Sample(), 4, 2) == Some(6) && ReadUInt(Sample(), 8, 2) == Some(4)
    ensures ReadUInt(Sample(), 16, 4) == Some(7)
  {
    hide Sample, FromLE;
    FromLE4([12, 0, 0, 0]);
    FromLE4([8, 0, 0, 0]);
    FromLE4([7, 0, 0, 0]);
    FromLE2([6, 0]);
    FromLE2([4, 0]);
  }

  lemma SampleReads()
    ensures GetRoot(Sample()) == Some(12) && GetVTable(Sample(), 12) == Some(4)
    ensures GetField(Sample(), 12, 4, 4, 99) == Some(7)
    ensures GetField(Sample(), 12, 6, 4, 99) == Some(99)
  {
    hide Sample, ReadUInt;
    SampleNumbers();
  }

  lemma SampleAccepted()
    ensures BufferResult(Sample(), [[FieldDecl(4, InlineData(4), true)]], Limits(1, 1, true), 0, None, 0, 0, 0)
         == Some(true)
    ensures BufferResult(Sample(), [[FieldDecl(4, InlineData(4), true)]], Limits(0, 1, true), 0, None, 0, 0, 0)
         == Some(false)
    ensures BufferResult(Sample(), [[FieldDecl(6, InlineData(4), true)]], Limits(1, 1, true), 0, None, 0, 0, 0)
         == Some(false)
  {
    hide Sample, FromLE;
    SampleNumbers();
    var b := Sample();
    assert LE(b, 0, 4) == 12 && LE(b, 4, 2) == 6;
    assert CheckedOffset(b, 0, true) == 12;
    assert TableStartOk(b, 12, true);
    assert GetOptionalFieldOffset(b, 12, 4) == Some(4) && GetOptionalFieldOffset(b, 12, 6) == Some(0);
  }
}
