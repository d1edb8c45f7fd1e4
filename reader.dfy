/**
 * The archive entry reader: a pull loop over the archive that captures at
 * most `limit` bytes of each entry's body in one reused buffer and pairs
 * them with the mapped header.
 */
module Reader {
  import opened Wrappers
  import opened Schema
  import opened Headers

  /**
   * The body of one entry as the archive delivers it: `data` are the bytes
   * that arrive before the body ends (failure == None) or before a read of it
   * fails (failure == Some(e)).
   */
  datatype Body = Body(data: seq<Byte>, failure: Option<Error>)

  /** One result of tar.Reader.Next: an entry with its body, the end of the archive, or an error. */
  datatype Next = Entry(hdr: TarHeader, body: Body) | Eof | Failed(err: Error)

  /** What io.Copy returns after moving bytes into the buffer: the bytes moved and its error. */
  datatype Copied = Copied(read: seq<Byte>, err: Option<Error>)

  /** One element of the sequence ToItems yields. */
  datatype Pair = Pair(item: TarItemAsn1, err: Option<Error>)

  /**
   * io.Copy from an io.LimitedReader{body, N: limit}: the reader gives end of
   * file as soon as N reaches 0, so nothing is read when limit <= 0 and
   * reading stops after `limit` bytes; a read failure of the body counts
   * only when it comes before the limit.
   */
  function LimitedCopy(body: Body, limit: Int64): (c: Copied)
    ensures |c.read| == (if limit <= 0 then 0 else Min(|body.data|, limit))
    ensures c.read == body.data[..|c.read|]
    ensures c.err.Some? <==> 0 < limit && |body.data| < limit && body.failure.Some?
    ensures c.err.Some? ==> c.err == body.failure
  {
    if limit <= 0 then Copied([], None)
    else if limit <= |body.data| then Copied(body.data[..limit], None)
    else Copied(body.data, body.failure)
  }

  /**
   * What one Next result other than end of archive contributes: the item
   * built from the mapped header and the captured bytes, or the zero-valued
   * item with the error.
   */
  function ItemOf(n: Next, limit: Int64): (p: Pair)
    requires !n.Eof?
    ensures p.err.None? <==> n.Entry? && LimitedCopy(n.body, limit).err.None?
    ensures p.err.None? ==> p.item.header == n.hdr.ToHeader()
    ensures p.err.None? ==> |p.item.content| == (if limit <= 0 then 0 else Min(|n.body.data|, limit))
    ensures p.err.None? ==> p.item.content == n.body.data[..|p.item.content|]
    ensures p.err.Some? ==> p.item == EmptyItem
    ensures n.Failed? ==> p.err == Some(n.err)
    ensures n.Entry? && p.err.Some? ==> p.err == n.body.failure
  {
    match n
    case Failed(e) => Pair(EmptyItem, Some(e))
    case Entry(hdr, body) =>
      var c := LimitedCopy(body, limit);
      if c.err.Some? then Pair(EmptyItem, c.err)
      else Pair(TarItemAsn1(hdr.ToHeader(), c.read), None)
  }

  /**
   * Everything ToItems yields over the archive `src` when the consumer never
   * stops it: one pair per Next result, up to end of archive, or up to and
   * including the first error.
   */
  function Items(src: seq<Next>, limit: Int64): (s: seq<Pair>)
    ensures |s| <= |src|
    decreases |src|
  {
    if src == [] || src[0].Eof? then []
    else
      var p := ItemOf(src[0], limit);
      if p.err.Some? then [p] else [p] + Items(src[1..], limit)
  }

  /**
   * The i-th yielded pair comes from the archive's i-th Next result, and
   * every pair before it is a success: items keep archive order and only the
   * last one can carry an error.
   */
  lemma {:induction false} ItemAt(src: seq<Next>, limit: Int64, i: nat)
    requires i < |Items(src, limit)|
    ensures !src[i].Eof?
    ensures Items(src, limit)[i] == ItemOf(src[i], limit)
    ensures Items(src, limit)[i].err.Some? ==> i == |Items(src, limit)| - 1
  {
    if i > 0 {
      ItemAt(src[1..], limit, i - 1);
    }
  }

  /**
   * How the sequence ends: when it is shorter than the archive and its last
   * pair (if any) is a success, the next Next result is end of archive.
   */
  lemma {:induction false} ItemsEnd(src: seq<Next>, limit: Int64)
    ensures var s := Items(src, limit);
      |s| < |src| && (s == [] || s[|s| - 1].err.None?) ==> src[|s|].Eof?
  {
    if src != [] && !src[0].Eof? && ItemOf(src[0], limit).err.None? {
      ItemsEnd(src[1..], limit);
    }
  }

  /**
   * The truncation law: a successful item holds exactly the first
   * min(|body|, limit) bytes of its entry's body (none when limit <= 0),
   * while its header keeps the size the archive reported.
   */
  lemma TruncationLaw(src: seq<Next>, limit: Int64, i: nat)
    requires i < |Items(src, limit)| && Items(src, limit)[i].err.None?
    ensures src[i].Entry?
    ensures var item := Items(src, limit)[i].item;
      && |item.content| == (if limit <= 0 then 0 else Min(|src[i].body.data|, limit))
      && item.content == src[i].body.data[..|item.content|]
      && item.header.size == src[i].hdr.size
  {
    ItemAt(src, limit, i);
  }

  /**
   * The number of pairs a consumer receives from `s` when it answers c(h)
   * after receiving the prefix h, counting from the prefix of length `from`:
   * the first prefix beyond `from` it rejects, or all of `s`.
   */
  function StopCount(s: seq<Pair>, c: seq<Pair> -> bool, from: nat): (n: nat)
    requires from <= |s|
    ensures from <= n <= |s|
    ensures forall j :: from < j < n ==> c(s[..j])
    ensures n == |s| || (from < n && !c(s[..n]))
    decreases |s| - from
  {
    if from == |s| then |s|
    else if !c(s[..from + 1]) then from + 1
    else StopCount(s, c, from + 1)
  }

  /** The pairs a consumer receives from `s`. */
  function Emitted(s: seq<Pair>, c: seq<Pair> -> bool): seq<Pair>
  {
    s[..StopCount(s, c, 0)]
  }

  /**
   * What the consumer receives is a prefix of `s`: it accepted every shorter
   * prefix, and it declined the one it got last unless it got all of `s`.
   */
  lemma EmittedPrefix(s: seq<Pair>, c: seq<Pair> -> bool)
    ensures var e := Emitted(s, c);
      && |e| <= |s| && e == s[..|e|]
      && (forall j :: 0 < j < |e| ==> c(s[..j]))
      && (|e| == |s| || (0 < |e| && !c(e)))
  {
  }

  /**
   * How many Next results ToItems consumes: one per pair it yields, and one
   * more for the end of archive when neither the consumer nor an error
   * stopped it first.
   */
  function Pulls(src: seq<Next>, limit: Int64, c: seq<Pair> -> bool): (k: nat)
    ensures k <= |src|
  {
    var s := Items(src, limit);
    var n := StopCount(s, c, 0);
    if 0 < n && (s[n - 1].err.Some? || !c(s[..n])) then n
    else if |s| < |src| then |s| + 1
    else |s|
  }

  /**
   * StopCount is the first rejected prefix: a consumer that accepts every
   * prefix shorter than m and rejects the one of length m (or has reached
   * the end) receives exactly m pairs.
   */
  lemma StopCountAt(s: seq<Pair>, c: seq<Pair> -> bool, m: nat)
    requires m <= |s|
    requires forall j :: 0 < j < m ==> c(s[..j])
    requires m == |s| || (0 < m && !c(s[..m]))
    ensures StopCount(s, c, 0) == m
  {
  }

  /** The first i pairs are successes, and the consumer accepted each prefix up to the i-th. */
  ghost predicate Accepted(s: seq<Pair>, c: seq<Pair> -> bool, i: nat)
  {
    && i <= |s|
    && (forall j :: 0 <= j < i ==> s[j].err.None?)
    && (forall j :: 0 < j <= i ==> c(s[..j]))
  }

  lemma AcceptedStep(s: seq<Pair>, c: seq<Pair> -> bool, i: nat)
    requires Accepted(s, c, i) && i < |s| && s[i].err.None? && c(s[..i + 1])
    ensures Accepted(s, c, i + 1)
  {
  }

  /**
   * The end of the archive after i accepted successes: the consumer gets
   * all of them, and the end-of-archive result, when recorded, is consumed too.
   */
  lemma EndsAtEof(src: seq<Next>, limit: Int64, c: seq<Pair> -> bool, i: nat)
    requires i == |Items(src, limit)| && i <= |src|
    requires Accepted(Items(src, limit), c, i)
    ensures Emitted(Items(src, limit), c) == Items(src, limit)
    ensures Pulls(src, limit, c) == if i < |src| then i + 1 else i
  {
    StopCountAt(Items(src, limit), c, i);
  }

  /**
   * A stop on the (i+1)-th pair, because it is an error or because the
   * consumer declines it: exactly i+1 pairs are yielded and i+1 entries read.
   */
  lemma EndsAfter(src: seq<Next>, limit: Int64, c: seq<Pair> -> bool, i: nat)
    requires i < |Items(src, limit)|
    requires Accepted(Items(src, limit), c, i)
    requires (Items(src, limit)[i].err.Some? && |Items(src, limit)| == i + 1) || !c(Items(src, limit)[..i + 1])
    ensures Emitted(Items(src, limit), c) == Items(src, limit)[..i + 1]
    ensures Pulls(src, limit, c) == i + 1
  {
    StopCountAt(Items(src, limit), c, i + 1);
  }

  /**
   * ToItems stops pulling as soon as the consumer declines: when the
   * consumer accepts the first k pairs and declines the (k+1)-th, a success,
   * exactly k+1 pairs are yielded and k+1 entries are read.
   */
  lemma StopsWhenConsumerStops(src: seq<Next>, limit: Int64, c: seq<Pair> -> bool, k: nat)
    requires k < |Items(src, limit)| && Items(src, limit)[k].err.None?
    requires forall j :: 0 < j <= k ==> c(Items(src, limit)[..j])
    requires !c(Items(src, limit)[..k + 1])
    ensures Emitted(Items(src, limit), c) == Items(src, limit)[..k + 1]
    ensures Pulls(src, limit, c) == k + 1
  {
    StopCountAt(Items(src, limit), c, k + 1);
  }

  /** bytes.Buffer, reduced to what ToItems uses of it. */
  class ByteBuffer {
    var data: seq<Byte>

    constructor ()
      ensures data == []
    {
      data := [];
    }

    method Reset()
      modifies this
      ensures data == []
    {
      data := [];
    }

    method Write(p: seq<Byte>)
      modifies this
      ensures data == old(data) + p
    {
      data := data + p;
    }

    function Bytes(): seq<Byte>
      reads this
    {
      data
    }
  }

  /** A tar.Reader: the Next results it has still to give, in archive order. */
  class TarReader {
    var pending: seq<Next>

    constructor (archive: seq<Next>)
      ensures pending == archive
    {
      pending := archive;
    }

    /** tar.Reader.Next; past the last recorded result it keeps reporting end of archive. */
    method Next() returns (r: Next)
      modifies this
      ensures old(pending) == [] ==> r == Eof && pending == []
      ensures old(pending) != [] ==> r == old(pending)[0] && pending == old(pending)[1..]
    {
      if pending == [] {
        r := Eof;
      } else {
        r := pending[0];
        pending := pending[1..];
      }
    }

    /**
     * One turn of the pull loop: read the next header; at end of archive
     * report None; otherwise reset the buffer, copy at most `limit` body
     * bytes into it and report the pair to yield.
     */
    method PullEntry(limit: Int64, buf: ByteBuffer) returns (r: Option<Pair>)
      modifies this, buf
      ensures old(pending) == [] || old(pending)[0].Eof? <==> r.None?
      ensures r.Some? ==> r.value == ItemOf(old(pending)[0], limit)
      ensures pending == if old(pending) == [] then [] else old(pending)[1..]
      ensures old(pending) != [] && old(pending)[0].Entry? ==>
        buf.data == LimitedCopy(old(pending)[0].body, limit).read
    {
      var next := Next();
      if next.Eof? {
        return None;
      }
      if next.Failed? {
        return Some(Pair(EmptyItem, Some(next.err)));
      }
      buf.Reset();
      var copied := LimitedCopy(next.body, limit);
      buf.Write(copied.read);
      if copied.err.Some? {
        return Some(Pair(EmptyItem, copied.err));
      }
      var item := TarItemAsn1(next.hdr.ToHeader(), buf.Bytes());
      return Some(Pair(item, None));
    }

    /**
     * The pull loop behind the iterator: yield the entries' items in archive
     * order; end quietly at end of archive, yield one error pair on any
     * other failure and stop, and stop when the consumer declines.
     */
    method ToItems(limit: Int64, consumer: seq<Pair> -> bool) returns (yielded: seq<Pair>)
      modifies this
      ensures yielded == Emitted(Items(old(pending), limit), consumer)
      ensures pending == old(pending)[Pulls(old(pending), limit, consumer)..]
    {
      ghost var src := pending;
      ghost var s := Items(src, limit);
      var buf := new ByteBuffer();
      yielded := [];
      while true
        invariant |yielded| <= |src|
        invariant pending == src[|yielded|..]
        invariant Accepted(s, consumer, |yielded|)
        invariant yielded == s[..|yielded|]
        decreases |pending|
      {
        ghost var i := |yielded|;
        var r := PullEntry(limit, buf);
        if r.None? {
          if i < |s| {
            ItemAt(src, limit, i);
          }
          EndsAtEof(src, limit, consumer, i);
          return;
        }
        if i == |s| {
          ItemsEnd(src, limit);
        }
        ItemAt(src, limit, i);
        yielded := yielded + [r.value];
        assert yielded == s[..i + 1];
        if r.value.err.Some? {
          EndsAfter(src, limit, consumer, i);
          return;
        }
        if !consumer(yielded) {
          EndsAfter(src, limit, consumer, i);
          return;
        }
        AcceptedStep(s, consumer, i);
      }
    }
  }
}
