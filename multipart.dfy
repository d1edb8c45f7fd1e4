/**
 * The part writer: one multi-part body part per encoded item, with a fixed
 * content-type header, stopping at the first failure, and the closing call
 * whose error is joined with the loop's.
 */
module Multipart {
  import opened Wrappers
  import opened Schema
  import opened Reader

  const ContentTypeKey: string := "Content-Type"
  const ContentTypeVal: string := "application/asn1-der"

  /** textproto.MIMEHeader: each key to its list of values. */
  type MimeHeader = map<string, seq<string>>

  /**
   * MIMEHeader.Set: the key ends up with the one given value, all other keys
   * keep theirs. (The key is taken as already canonical, as ContentTypeKey is.)
   */
  function SetHeader(h: MimeHeader, key: string, value: string): (r: MimeHeader)
    ensures r.Keys == h.Keys + {key}
    ensures r[key] == [value]
  {
    h[key := [value]]
  }

  /** MIMEHeader.Set leaves every other key's values as they were. */
  lemma SetHeaderKeepsOthers(h: MimeHeader, key: string, value: string)
    ensures forall k :: k in h && k != key ==> SetHeader(h, key, value)[k] == h[k]
  {
  }

  /** The header of every part: exactly one key, Content-Type, with exactly one value. */
  function CreateAsn1Header(): (h: MimeHeader)
    ensures h.Keys == {ContentTypeKey}
    ensures h[ContentTypeKey] == [ContentTypeVal]
  {
    SetHeader(map[], ContentTypeKey, ContentTypeVal)
  }

  /** One part of the multi-part body: its header block and the bytes of its body. */
  datatype Part = Part(header: MimeHeader, body: seq<Byte>)

  /** What an io.Writer's Write reports: how many bytes it took, and its error. */
  datatype WriteResult = WriteResult(count: nat, err: Option<Error>)

  /**
   * The behaviour of the output stream, as oracles indexed by part number:
   * whether writing the boundary and header block of part i fails, what
   * writing the body of part i reports, and what closing reports.
   */
  datatype Sink = Sink(createErr: nat -> Option<Error>, write: nat -> WriteResult, closeErr: Option<Error>)

  /** A context.Context: err(k) is what ctx.Err() reports when the loop looks at ctx.Done() on iteration k. */
  datatype Context = Context(err: nat -> Option<Error>)

  /**
   * What happens to one item: its part was written whole, its part was
   * started and the body write failed after some bytes, or no part was
   * started for it.
   */
  datatype Verdict = Wrote(body: seq<Byte>) | Broken(error: Error, body: seq<Byte>) | Refused(error: Error)

  /** Taken: the bytes of `der` a body write takes: all of them, or on failure the first `count`. */
  function Taken(w: WriteResult, der: seq<Byte>): seq<Byte>
  {
    if w.err.None? then der else der[..Min(w.count, |der|)]
  }

  /** WriteAsn1Bytes on part number `index`: create the part, then write its body. */
  function Deliver(sink: Sink, index: nat, der: seq<Byte>): Verdict
  {
    if sink.createErr(index).Some? then Refused(sink.createErr(index).value)
    else if sink.write(index).err.Some? then Broken(sink.write(index).err.value, Taken(sink.write(index), der))
    else Wrote(der)
  }

  /**
   * One iteration of WriteItems on the pair `p`, the iteration-th, with
   * `index` parts written so far: cancellation first, then the upstream
   * error, then encoding, then the part.
   */
  function Process(ctx: Context, toDer: Encoder, sink: Sink, iteration: nat, index: nat, p: Pair): Verdict
  {
    if ctx.err(iteration).Some? then Refused(ctx.err(iteration).value)
    else if p.err.Some? then Refused(p.err.value)
    else match toDer(p.item)
      case Failure(e) => Refused(e)
      case Success(der) => Deliver(sink, index, der)
  }

  /** The parts a verdict leaves in the output. */
  function PartsOf(v: Verdict): seq<Part>
  {
    if v.Refused? then [] else [Part(CreateAsn1Header(), v.body)]
  }

  /** The error a verdict reports. */
  function ErrorOf(v: Verdict): Option<Error>
  {
    if v.Wrote? then None else Some(v.error)
  }

  /** The parts WriteItems adds to the output and the error it returns. */
  datatype Outcome = Outcome(parts: seq<Part>, err: Option<Error>)

  /**
   * The verdict on each pair if the loop reaches it: the k-th pair is looked
   * at on iteration k, with base + k parts already in the output.
   */
  function Verdicts(ctx: Context, items: seq<Pair>, toDer: Encoder, sink: Sink, base: nat): seq<Verdict>
  {
    seq(|items|, k requires 0 <= k < |items| => Process(ctx, toDer, sink, k, base + k, items[k]))
  }

  lemma VerdictsAt(ctx: Context, items: seq<Pair>, toDer: Encoder, sink: Sink, base: nat)
    ensures var vs := Verdicts(ctx, items, toDer, sink, base);
      |vs| == |items| && forall k :: 0 <= k < |items| ==> vs[k] == Process(ctx, toDer, sink, k, base + k, items[k])
  {
  }

  /**
   * A run of verdicts: the loop goes on while parts are written whole; the
   * first other verdict ends it with its error.
   */
  function Collect(vs: seq<Verdict>): (o: Outcome)
    ensures |o.parts| <= |vs|
  {
    if vs == [] then Outcome([], None)
    else if vs[0].Wrote? then
      var rest := Collect(vs[1..]);
      Outcome(PartsOf(vs[0]) + rest.parts, rest.err)
    else Outcome(PartsOf(vs[0]), Some(vs[0].error))
  }

  /**
   * The loop of WriteItems from iteration `k` on, with `index` parts in the
   * output: the verdict on the k-th pair, then, if it was written whole, the
   * rest of the loop.
   */
  function Run(ctx: Context, items: seq<Pair>, toDer: Encoder, sink: Sink, base: nat, k: nat): Outcome
    requires k <= |items|
    decreases |items| - k
  {
    if k == |items| then Outcome([], None)
    else
      var v := Process(ctx, toDer, sink, k, base + k, items[k]);
      if v.Wrote? then
        var rest := Run(ctx, items, toDer, sink, base, k + 1);
        Outcome(PartsOf(v) + rest.parts, rest.err)
      else Outcome(PartsOf(v), Some(v.error))
  }

  /** `whole` is what is left of the loop from iteration k, after `done` parts. */
  ghost predicate Resumes(whole: Outcome, ctx: Context, items: seq<Pair>, toDer: Encoder, sink: Sink, base: nat, k: nat, done: seq<Part>)
    requires k <= |items|
  {
    var rest := Run(ctx, items, toDer, sink, base, k);
    whole == Outcome(done + rest.parts, rest.err)
  }

  /** One iteration of the loop: a part written whole moves on; any other verdict ends it with its error. */
  lemma RunStep(whole: Outcome, ctx: Context, items: seq<Pair>, toDer: Encoder, sink: Sink, base: nat, k: nat, done: seq<Part>)
    requires k < |items|
    requires Resumes(whole, ctx, items, toDer, sink, base, k, done)
    ensures var v := Process(ctx, toDer, sink, k, base + k, items[k]);
      if v.Wrote? then Resumes(whole, ctx, items, toDer, sink, base, k + 1, done + PartsOf(v))
      else whole == Outcome(done + PartsOf(v), Some(v.error))
  {
  }

  /** What WriteItems does over `items` on an output that already holds `base` parts. */
  function WriteItemsSpec(ctx: Context, items: seq<Pair>, toDer: Encoder, sink: Sink, base: nat): Outcome
  {
    Run(ctx, items, toDer, sink, base, 0)
  }

  /** The loop, run from iteration k, is Collect over the verdicts from k on. */
  lemma {:induction false} RunIsCollect(ctx: Context, items: seq<Pair>, toDer: Encoder, sink: Sink, base: nat, k: nat)
    requires k <= |items|
    ensures Run(ctx, items, toDer, sink, base, k) == Collect(Verdicts(ctx, items, toDer, sink, base)[k..])
    decreases |items| - k
  {
    var vs := Verdicts(ctx, items, toDer, sink, base);
    VerdictsAt(ctx, items, toDer, sink, base);
    if k < |items| {
      RunIsCollect(ctx, items, toDer, sink, base, k + 1);
      assert vs[k..][1..] == vs[k + 1..];
    } else {
      assert vs[k..] == [];
    }
  }

  lemma {:induction false} CollectAllWritten(vs: seq<Verdict>)
    ensures Collect(vs).err.None? <==> forall k :: 0 <= k < |vs| ==> vs[k].Wrote?
    ensures Collect(vs).err.None? ==>
      && |Collect(vs).parts| == |vs|
      && forall k :: 0 <= k < |vs| ==> Collect(vs).parts[k] == Part(CreateAsn1Header(), vs[k].body)
  {
    if vs != [] && vs[0].Wrote? {
      CollectAllWritten(vs[1..]);
      assert forall k :: 0 < k < |vs| ==> vs[1..][k - 1] == vs[k];
    }
  }

  lemma {:induction false} CollectFirstFailure(vs: seq<Verdict>, f: nat)
    requires f < |vs|
    requires forall k :: 0 <= k < f ==> vs[k].Wrote?
    requires !vs[f].Wrote?
    ensures Collect(vs).err == Some(vs[f].error)
    ensures |Collect(vs).parts| == f + |PartsOf(vs[f])|
    ensures forall k :: 0 <= k < f ==> Collect(vs).parts[k] == Part(CreateAsn1Header(), vs[k].body)
    ensures Collect(vs).parts[f..] == PartsOf(vs[f])
  {
    if f > 0 {
      CollectFirstFailure(vs[1..], f - 1);
      assert forall k :: 0 < k < |vs| ==> vs[1..][k - 1] == vs[k];
    }
  }

  lemma {:induction false} CollectPrefix(vs: seq<Verdict>, m: nat)
    requires 0 < m <= |vs|
    requires !vs[m - 1].Wrote?
    ensures Collect(vs[..m]) == Collect(vs)
  {
    if vs[0].Wrote? {
      assert vs[..m][1..] == vs[1..][..m - 1];
      CollectPrefix(vs[1..], m - 1);
    }
  }

  /**
   * When every item is written: no error, and exactly one part per item, in
   * input order, each holding the content-type header and the item's DER
   * bytes. Conversely, no error means the loop wrote every item whole.
   */
  lemma AllWritten(ctx: Context, items: seq<Pair>, toDer: Encoder, sink: Sink, base: nat)
    ensures var o := WriteItemsSpec(ctx, items, toDer, sink, base);
      o.err.None? <==> forall k :: 0 <= k < |items| ==> Process(ctx, toDer, sink, k, base + k, items[k]).Wrote?
    ensures var o := WriteItemsSpec(ctx, items, toDer, sink, base);
      o.err.None? ==>
        && |o.parts| == |items|
        && forall k :: 0 <= k < |items| ==>
             && items[k].err.None? && toDer(items[k].item).Success?
             && o.parts[k] == Part(CreateAsn1Header(), toDer(items[k].item).value)
  {
    VerdictsAt(ctx, items, toDer, sink, base);
    RunIsCollect(ctx, items, toDer, sink, base, 0);
    CollectAllWritten(Verdicts(ctx, items, toDer, sink, base));
  }

  /**
   * When the f-th item is the first not written whole: the result is its
   * error, the output holds the parts of the f earlier items in order, and a
   * part for the f-th item only if that part was started (its body write
   * failed).
   */
  lemma FirstFailure(ctx: Context, items: seq<Pair>, toDer: Encoder, sink: Sink, base: nat, f: nat)
    requires f < |items|
    requires forall k :: 0 <= k < f ==> Process(ctx, toDer, sink, k, base + k, items[k]).Wrote?
    requires !Process(ctx, toDer, sink, f, base + f, items[f]).Wrote?
    ensures var o := WriteItemsSpec(ctx, items, toDer, sink, base);
      var v := Process(ctx, toDer, sink, f, base + f, items[f]);
      && o.err == Some(v.error)
      && |o.parts| == f + |PartsOf(v)|
      && (forall k :: 0 <= k < f ==>
            toDer(items[k].item).Success? && o.parts[k] == Part(CreateAsn1Header(), toDer(items[k].item).value))
      && o.parts[f..] == PartsOf(v)
  {
    VerdictsAt(ctx, items, toDer, sink, base);
    RunIsCollect(ctx, items, toDer, sink, base, 0);
    CollectFirstFailure(Verdicts(ctx, items, toDer, sink, base), f);
  }

  /**
   * Cancellation is looked at before anything else: when the context is done
   * at iteration f, after f items written whole, the result is ctx.Err(),
   * even if the f-th pair carries an error of its own, and the output holds
   * exactly the f earlier parts.
   */
  lemma CancellationFirst(ctx: Context, items: seq<Pair>, toDer: Encoder, sink: Sink, base: nat, f: nat)
    requires f < |items|
    requires forall k :: 0 <= k < f ==> Process(ctx, toDer, sink, k, base + k, items[k]).Wrote?
    requires ctx.err(f).Some?
    ensures var o := WriteItemsSpec(ctx, items, toDer, sink, base);
      o.err == ctx.err(f) && |o.parts| == f
  {
    FirstFailure(ctx, items, toDer, sink, base, f);
  }

  /**
   * After cancellation, the pair's own error comes next, then encoding, then
   * part creation; each stops the loop with no part started for that item.
   */
  lemma FailureOrder(ctx: Context, items: seq<Pair>, toDer: Encoder, sink: Sink, base: nat, f: nat)
    requires f < |items|
    requires forall k :: 0 <= k < f ==> Process(ctx, toDer, sink, k, base + k, items[k]).Wrote?
    requires ctx.err(f).None?
    ensures var o := WriteItemsSpec(ctx, items, toDer, sink, base);
      && (items[f].err.Some? ==> o.err == items[f].err && |o.parts| == f)
      && (items[f].err.None? && toDer(items[f].item).Failure? ==>
            o.err == Some(toDer(items[f].item).error) && |o.parts| == f)
      && (items[f].err.None? && toDer(items[f].item).Success? && sink.createErr(base + f).Some? ==>
            o.err == sink.createErr(base + f) && |o.parts| == f)
  {
    if !Process(ctx, toDer, sink, f, base + f, items[f]).Wrote? {
      FirstFailure(ctx, items, toDer, sink, base, f);
    }
  }

  /**
   * WriteItems never looks past the item it stops on: its outcome over the
   * first m items equals its outcome over all of them when the m-th stops it.
   */
  lemma LooksNoFurther(ctx: Context, items: seq<Pair>, toDer: Encoder, sink: Sink, base: nat, m: nat)
    requires 0 < m <= |items|
    requires !Process(ctx, toDer, sink, m - 1, base + m - 1, items[m - 1]).Wrote?
    ensures WriteItemsSpec(ctx, items[..m], toDer, sink, base) == WriteItemsSpec(ctx, items, toDer, sink, base)
  {
    var vs := Verdicts(ctx, items, toDer, sink, base);
    VerdictsAt(ctx, items, toDer, sink, base);
    VerdictsAt(ctx, items[..m], toDer, sink, base);
    assert Verdicts(ctx, items[..m], toDer, sink, base) == vs[..m];
    RunIsCollect(ctx, items, toDer, sink, base, 0);
    RunIsCollect(ctx, items[..m], toDer, sink, base, 0);
    assert vs[..m][0..] == vs[..m] && vs[0..] == vs;
    CollectPrefix(vs, m);
  }

  /**
   * Go's errors.Join: the nil errors are dropped; nil when nothing is left,
   * otherwise one error wrapping all the others in order.
   */
  function NonNil(errs: seq<Option<Error>>): (r: seq<Error>)
    ensures |r| <= |errs|
    ensures forall e :: e in r <==> Some(e) in errs
    ensures r == [] <==> forall i :: 0 <= i < |errs| ==> errs[i].None?
  {
    if errs == [] then []
    else (if errs[0].Some? then [errs[0].value] else []) + NonNil(errs[1..])
  }

  function Join(errs: seq<Option<Error>>): (r: Option<Error>)
    ensures r.None? <==> forall i :: 0 <= i < |errs| ==> errs[i].None?
    ensures r.Some? ==> r.value.Joined? && forall e :: e in r.value.errs <==> Some(e) in errs
  {
    var es := NonNil(errs);
    if es == [] then None else Some(Joined(es))
  }

  /** The result of WriteAll: nil exactly when both errors are nil, and neither cause is dropped. */
  lemma JoinTwo(a: Option<Error>, b: Option<Error>)
    ensures Join([a, b]).None? <==> a.None? && b.None?
    ensures a.Some? && b.Some? ==> Join([a, b]) == Some(Joined([a.value, b.value]))
    ensures a.Some? && b.None? ==> Join([a, b]) == Some(Joined([a.value]))
    ensures a.None? && b.Some? ==> Join([a, b]) == Some(Joined([b.value]))
  {
    assert [a, b][1..] == [b] && [b][1..] == [];
    var head := if a.Some? then [a.value] else [];
    var tail := if b.Some? then [b.value] else [];
    assert NonNil([b]) == tail + NonNil([]);
    assert NonNil([a, b]) == head + tail;
    assert Join([a, b]) == if head + tail == [] then None else Some(Joined(head + tail));
    if a.Some? && b.Some? {
      assert head + tail == [a.value, b.value];
    } else if a.Some? {
      assert head + tail == [a.value];
    } else if b.Some? {
      assert head + tail == [b.value];
    }
  }

  /** The output stream: the parts written to it so far, and how often Close was called on the writer over it. */
  class Output {
    const sink: Sink
    var parts: seq<Part>
    var closeCalls: nat

    constructor (sink: Sink)
      ensures this.sink == sink && parts == [] && closeCalls == 0
    {
      this.sink := sink;
      parts := [];
      closeCalls := 0;
    }
  }

  /** A multipart.Writer bound to an output stream. */
  class MultipartWriter {
    const out: Output

    /** multipart.NewWriter: writes nothing yet. */
    constructor (out: Output)
      ensures this.out == out
    {
      this.out := out;
    }

    /** multipart.Writer.CreatePart: boundary and header block; nothing is added when that fails. */
    method CreatePart(header: MimeHeader) returns (err: Option<Error>)
      modifies out
      ensures err == out.sink.createErr(|old(out.parts)|)
      ensures out.parts == if err.None? then old(out.parts) + [Part(header, [])] else old(out.parts)
      ensures out.closeCalls == old(out.closeCalls)
    {
      err := out.sink.createErr(|out.parts|);
      if err.None? {
        out.parts := out.parts + [Part(header, [])];
      }
    }

    /** Write on the part CreatePart returned: the bytes the stream takes go to the end of the last part's body. */
    method WriteToPart(der: seq<Byte>) returns (err: Option<Error>)
      requires out.parts != []
      modifies out
      ensures var i := |old(out.parts)| - 1;
        && err == out.sink.write(i).err
        && out.parts == old(out.parts)[..i] + [Part(old(out.parts)[i].header, old(out.parts)[i].body + Taken(out.sink.write(i), der))]
      ensures out.closeCalls == old(out.closeCalls)
    {
      var i := |out.parts| - 1;
      var w := out.sink.write(i);
      out.parts := out.parts[..i] + [Part(out.parts[i].header, out.parts[i].body + Taken(w, der))];
      err := w.err;
    }

    /** One part with the content-type header and `der` as its body; on CreatePart's failure nothing is written. */
    method WriteAsn1Bytes(der: seq<Byte>) returns (err: Option<Error>)
      modifies out
      ensures var v := Deliver(out.sink, |old(out.parts)|, der);
        out.parts == old(out.parts) + PartsOf(v) && err == ErrorOf(v)
      ensures out.closeCalls == old(out.closeCalls)
    {
      var hdr := CreateAsn1Header();
      err := CreatePart(hdr);
      if err.Some? {
        return;
      }
      ghost var created := out.parts;
      err := WriteToPart(der);
      assert created[..|created| - 1] == old(out.parts);
      assert [] + Taken(out.sink.write(|old(out.parts)|), der) == Taken(out.sink.write(|old(out.parts)|), der);
    }

    /**
     * The body of WriteItems' loop for the pair `p` on iteration `iteration`:
     * cancellation, then the pair's error, then encoding, then one part.
     */
    method WriteItem(ctx: Context, iteration: nat, p: Pair, toDer: Encoder, ghost v: Verdict) returns (err: Option<Error>)
      requires v == Process(ctx, toDer, out.sink, iteration, |out.parts|, p)
      modifies out
      ensures out.parts == old(out.parts) + PartsOf(v) && err == ErrorOf(v)
      ensures out.closeCalls == old(out.closeCalls)
    {
      var e := ctx.err(iteration);
      if e.Some? {
        return e;
      }
      if p.err.Some? {
        return p.err;
      }
      var der := toDer(p.item);
      if der.Failure? {
        return Some(der.error);
      }
      err := WriteAsn1Bytes(der.value);
    }

    /**
     * The loop over the (item, error) pairs: per pair, cancellation, then
     * the pair's error, then encoding, then one part; the first failure
     * ends it and is returned.
     */
    method WriteItems(ctx: Context, items: seq<Pair>, toDer: Encoder) returns (err: Option<Error>)
      modifies out
      ensures var o := WriteItemsSpec(ctx, items, toDer, out.sink, |old(out.parts)|);
        out.parts == old(out.parts) + o.parts && err == o.err
      ensures out.closeCalls == old(out.closeCalls)
    {
      ghost var base := |out.parts|;
      ghost var sink := out.sink;
      ghost var whole := WriteItemsSpec(ctx, items, toDer, sink, base);
      ghost var done: seq<Part> := [];
      var k := 0;
      while k < |items|
        invariant k <= |items| && |done| == k
        invariant out.parts == old(out.parts) + done
        invariant out.closeCalls == old(out.closeCalls)
        invariant Resumes(whole, ctx, items, toDer, sink, base, k, done)
      {
        ghost var v := Process(ctx, toDer, sink, k, base + k, items[k]);
        RunStep(whole, ctx, items, toDer, sink, base, k, done);
        err := WriteItem(ctx, k, items[k], toDer, v);
        if err.Some? {
          return;
        }
        done := done + PartsOf(v);
        k := k + 1;
      }
      return None;
    }

    /** multipart.Writer.Close: the closing boundary; it adds no part. */
    method Close() returns (err: Option<Error>)
      modifies out
      ensures out.parts == old(out.parts) && out.closeCalls == old(out.closeCalls) + 1
      ensures err == out.sink.closeErr
    {
      out.closeCalls := out.closeCalls + 1;
      err := out.sink.closeErr;
    }
  }

  /** Writer: an io.Writer the pipeline writes its multi-part body to. */
  class Writer {
    const out: Output

    constructor (out: Output)
      ensures this.out == out
    {
      this.out := out;
    }

    /**
     * A new multipart writer over the stream, WriteItems, then Close in every
     * case; the result joins the loop's error with Close's.
     */
    method WriteAll(ctx: Context, items: seq<Pair>, toDer: Encoder) returns (err: Option<Error>)
      modifies out
      ensures var o := WriteItemsSpec(ctx, items, toDer, out.sink, |old(out.parts)|);
        && out.parts == old(out.parts) + o.parts
        && out.closeCalls == old(out.closeCalls) + 1
        && err == Join([o.err, out.sink.closeErr])
    {
      var w := new MultipartWriter(out);
      var e := w.WriteItems(ctx, items, toDer);
      var c := w.Close();
      err := Join([e, c]);
    }
  }
}
