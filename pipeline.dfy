/**
 * The whole conversion: the archive's entries are pulled lazily by the part
 * writer's loop, so the reader yields an item only when the writer asks for
 * the next one, and everything written goes through one multipart writer
 * that is closed at the end.
 */
module Pipeline {
  import opened Wrappers
  import opened Schema
  import opened Headers
  import opened Reader
  import opened Multipart

  /** The item size limit the command uses when none is configured: 1 MiB. */
  const DefaultItemSizeLimit: Int64 := 1048576

  /**
   * What the body of WriteItems' range loop answers to the iterator after
   * receiving the pairs `hist`: it asks for another pair exactly when it
   * wrote the last one whole (returning from the loop makes yield report
   * false).
   */
  function WriterContinues(ctx: Context, toDer: Encoder, sink: Sink, base: nat): seq<Pair> -> bool
  {
    hist => |hist| > 0 && Process(ctx, toDer, sink, |hist| - 1, base + |hist| - 1, hist[|hist| - 1]).Wrote?
  }

  /**
   * Streaming changes nothing: with the writer as the iterator's consumer,
   * the pairs it receives lead to the same parts and error as running it
   * over everything the archive would yield.
   */
  lemma Streaming(ctx: Context, src: seq<Next>, limit: Int64, toDer: Encoder, sink: Sink, base: nat)
    ensures var s := Items(src, limit);
      WriteItemsSpec(ctx, Emitted(s, WriterContinues(ctx, toDer, sink, base)), toDer, sink, base)
        == WriteItemsSpec(ctx, s, toDer, sink, base)
  {
    var s := Items(src, limit);
    var c := WriterContinues(ctx, toDer, sink, base);
    var n := StopCount(s, c, 0);
    if n < |s| {
      assert !c(s[..n]);
      assert |s[..n]| == n && s[..n][n - 1] == s[n - 1];
      LooksNoFurther(ctx, s, toDer, sink, base, n);
    } else {
      assert s[..n] == s;
    }
  }

  /**
   * A run without error turns every archive entry up to the end of the
   * archive into exactly one part, in archive order, whose body is the DER
   * encoding of the mapped header with the first min(size, limit) bytes of
   * the entry's body.
   */
  lemma EndToEnd(ctx: Context, src: seq<Next>, limit: Int64, toDer: Encoder, sink: Sink, base: nat)
    requires WriteItemsSpec(ctx, Items(src, limit), toDer, sink, base).err.None?
    ensures var o := WriteItemsSpec(ctx, Items(src, limit), toDer, sink, base);
      && |o.parts| == |Items(src, limit)|
      && (|o.parts| == |src| || src[|o.parts|].Eof?)
      && forall i :: 0 <= i < |o.parts| ==>
           && src[i].Entry?
           && var item := TarItemAsn1(src[i].hdr.ToHeader(), LimitedCopy(src[i].body, limit).read);
              toDer(item).Success? && o.parts[i] == Part(CreateAsn1Header(), toDer(item).value)
  {
    var s := Items(src, limit);
    AllWritten(ctx, s, toDer, sink, base);
    forall i | 0 <= i < |s|
      ensures src[i].Entry? && s[i].item == TarItemAsn1(src[i].hdr.ToHeader(), LimitedCopy(src[i].body, limit).read)
    {
      ItemAt(src, limit, i);
    }
    ItemsEnd(src, limit);
  }

  /**
   * Cancellation before the first pair: whatever the archive holds, when it
   * yields anything at all, no part is written and the result is ctx.Err().
   */
  lemma CancelledAtOnce(ctx: Context, src: seq<Next>, limit: Int64, toDer: Encoder, sink: Sink, base: nat)
    requires ctx.err(0).Some?
    ensures var o := WriteItemsSpec(ctx, Items(src, limit), toDer, sink, base);
      o.parts == [] && (o.err == ctx.err(0) <==> Items(src, limit) != [])
  {
    if Items(src, limit) != [] {
      CancellationFirst(ctx, Items(src, limit), toDer, sink, base, 0);
    }
  }

  /**
   * The conversion: the reader's pull loop feeds the writer's loop, then the
   * writer is closed. The parts and the error are those of WriteAll over
   * everything the archive yields, and the archive is read exactly as far as
   * the writer asked for.
   */
  method Convert(reader: TarReader, limit: Int64, w: Writer, ctx: Context, toDer: Encoder) returns (err: Option<Error>)
    modifies reader, w.out
    ensures var o := WriteItemsSpec(ctx, Items(old(reader.pending), limit), toDer, w.out.sink, |old(w.out.parts)|);
      && w.out.parts == old(w.out.parts) + o.parts
      && w.out.closeCalls == old(w.out.closeCalls) + 1
      && err == Join([o.err, w.out.sink.closeErr])
    ensures var c := WriterContinues(ctx, toDer, w.out.sink, |old(w.out.parts)|);
      reader.pending == old(reader.pending)[Pulls(old(reader.pending), limit, c)..]
  {
    ghost var src := reader.pending;
    var c := WriterContinues(ctx, toDer, w.out.sink, |w.out.parts|);
    var items := reader.ToItems(limit, c);
    Streaming(ctx, src, limit, toDer, w.out.sink, |w.out.parts|);
    err := w.WriteAll(ctx, items, toDer);
  }

  /** A regular file "a.txt" holding "hi", in a USTAR archive. */
  const SmallHeader: TarHeader :=
    TarHeader(TypeReg, "a.txt", "", 2, 420, 1000, 1000, "user", "staff", Instant(1700000000, 0), TarFormatUSTAR)

  /** The item the reader builds for it. */
  const SmallItem: TarItemAsn1 :=
    TarItemAsn1(FileHeader(FileTypeRegular, "a.txt", "", 2, 420, 1000, 1000, "user", "staff", Instant(1700000000, 0), FormatUSTAR), [0x68, 0x69])

  const SmallEntry: Next := Entry(SmallHeader, Body([0x68, 0x69], None))

  /** One small file: one part with the content-type header and the item's encoding, and no error. */
  lemma SmallArchive(ctx: Context, toDer: Encoder, sink: Sink)
    requires ctx.err(0).None? && sink.createErr(0).None? && sink.write(0).err.None?
    requires toDer(SmallItem).Success?
    ensures WriteItemsSpec(ctx, Items([SmallEntry, Eof], DefaultItemSizeLimit), toDer, sink, 0)
      == Outcome([Part(CreateAsn1Header(), toDer(SmallItem).value)], None)
  {
    var src := [SmallEntry, Eof];
    assert SmallHeader.ToHeader() == SmallItem.header;
    assert ItemOf(SmallEntry, DefaultItemSizeLimit) == Pair(SmallItem, None);
    assert src[1..] == [Eof];
    assert Items(src[1..], DefaultItemSizeLimit) == [];
    var s := Items(src, DefaultItemSizeLimit);
    assert s == [Pair(SmallItem, None)];
    assert Process(ctx, toDer, sink, 0, 0, s[0]) == Wrote(toDer(SmallItem).value);
    assert Run(ctx, s, toDer, sink, 0, 1) == Outcome([], None);
  }

  /**
   * A read error after the first entry: its part is written, the error is
   * the result of the loop, and WriteAll reports it joined with a clean close.
   */
  lemma ArchiveErrorAfterOneEntry(ctx: Context, toDer: Encoder, sink: Sink, e: Error)
    requires ctx.err(0).None? && ctx.err(1).None? && sink.createErr(0).None? && sink.write(0).err.None?
    requires toDer(SmallItem).Success? && sink.closeErr.None?
    ensures var o := WriteItemsSpec(ctx, Items([SmallEntry, Failed(e)], DefaultItemSizeLimit), toDer, sink, 0);
      && o == Outcome([Part(CreateAsn1Header(), toDer(SmallItem).value)], Some(e))
      && Join([o.err, sink.closeErr]) == Some(Joined([e]))
  {
    var src := [SmallEntry, Failed(e)];
    assert SmallHeader.ToHeader() == SmallItem.header;
    assert ItemOf(SmallEntry, DefaultItemSizeLimit) == Pair(SmallItem, None);
    assert src[1..] == [Failed(e)];
    assert Items(src[1..], DefaultItemSizeLimit) == [Pair(EmptyItem, Some(e))];
    var s := Items(src, DefaultItemSizeLimit);
    assert s == [Pair(SmallItem, None), Pair(EmptyItem, Some(e))];
    FirstFailure(ctx, s, toDer, sink, 0, 1);
    JoinTwo(Some(e), None);
  }

  /**
   * An entry of 2,000,000 bytes under the default limit: its item holds the
   * first 1,048,576 bytes, and its header still reports 2,000,000.
   */
  lemma LargeEntryTruncated(hdr: TarHeader, data: seq<Byte>)
    requires hdr.size == 2000000 && |data| == 2000000
    ensures var s := Items([Entry(hdr, Body(data, None))], DefaultItemSizeLimit);
      && |s| == 1 && s[0].err.None?
      && s[0].item.content == data[..1048576]
      && s[0].item.header.size == 2000000
  {
    var src := [Entry(hdr, Body(data, None))];
    assert src[1..] == [];
  }
}
