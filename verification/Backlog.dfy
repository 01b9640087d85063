/** The ring that keeps the end of the write stream (src/core/state.cpp). */
module Backlog {
  import opened Common

  lemma ModOf(x: nat, cap: nat)
    requires 0 < cap && x < 2 * cap
    ensures x % cap == if x < cap then x else x - cap
  {
    var q := x / cap;
    assert x == q * cap + x % cap;
    assert q >= 2 ==> q * cap >= 2 * cap;
  }

  /** Where the k-th newest byte is when the write cursor is at `pos`. */
  function Slot(pos: nat, cap: nat, k: nat): (i: nat)
    requires pos < cap && 1 <= k <= cap
    ensures i < cap
  {
    if k <= pos then pos - k else pos + cap - k
  }

  /** The ring holds the last n bytes of the stream. */
  ghost predicate HoldsLast(ring: seq<char>, pos: nat, n: nat, stream: string) {
    && n <= |ring| && n <= |stream| && (pos < |ring| || pos == |ring| == 0)
    && forall k :: 1 <= k <= n ==> ring[Slot(pos, |ring|, k)] == stream[|stream| - k]
  }

  /** `bytes` laid over the ring from `pos` on, in at most two pieces. */
  ghost predicate Laid(old': seq<char>, ring: seq<char>, pos: nat, bytes: string)
    requires pos < |ring|
  {
    && |ring| == |old'| && |bytes| <= |ring|
    && (forall j :: 0 <= j < |bytes| ==> ring[if pos + j < |ring| then pos + j else pos + j - |ring|] == bytes[j])
    && (forall i :: 0 <= i < |ring| && !(pos <= i < pos + |bytes|) && !(i + |ring| < pos + |bytes|) ==>
          ring[i] == old'[i])
  }

  lemma LaidHolds(old': seq<char>, ring: seq<char>, pos: nat, bytes: string, n: nat, stream: string, pos': nat)
    requires pos < |ring| && Laid(old', ring, pos, bytes) && HoldsLast(old', pos, n, stream)
    requires pos' == if pos + |bytes| < |ring| then pos + |bytes| else pos + |bytes| - |ring|
    ensures HoldsLast(ring, pos', Min(n + |bytes|, |ring|), stream + bytes)
  {
    var cap, len, s := |ring|, |bytes|, stream + bytes;
    forall k | 1 <= k <= Min(n + len, cap) ensures ring[Slot(pos', cap, k)] == s[|s| - k] {
      if k <= len {
        var j := len - k;
        assert Slot(pos', cap, k) == if pos + j < cap then pos + j else pos + j - cap;
        assert bytes[j] == s[|s| - k];
      } else {
        assert Slot(pos', cap, k) == Slot(pos, cap, k - len);
        assert stream[|stream| - (k - len)] == s[|s| - k];
      }
    }
  }

  /** Of bytes that do not fit, only the end is laid; it fills the ring. */
  lemma FedHolds(old': seq<char>, ring: seq<char>, pos: nat, dropped: string, kept: string, n: nat, stream: string)
    requires pos < |ring| && Laid(old', ring, pos, kept) && HoldsLast(old', pos, n, stream)
    requires dropped == "" || |kept| == |ring|
    ensures HoldsLast(ring, (pos + |kept|) % |ring|, Min(n + |kept|, |ring|), stream + (dropped + kept))
  {
    ModOf(pos + |kept|, |ring|);
    if |kept| == |ring| {
      LaidHolds(old', ring, pos, kept, 0, stream + dropped, (pos + |kept|) % |ring|);
      assert stream + dropped + kept == stream + (dropped + kept);
    } else {
      LaidHolds(old', ring, pos, kept, n, stream, (pos + |kept|) % |ring|);
      assert dropped + kept == kept;
    }
  }

  /** The two pieces of the ring are the end of the stream. */
  lemma CopiedAll(ring: seq<char>, pos: nat, n: nat, stream: string, need: nat, out: string)
    requires HoldsLast(ring, pos, n, stream) && 0 < need <= n
    requires var start := if need <= pos then pos - need else pos + |ring| - need;
             var first := Min(need, |ring| - start);
             out == ring[start..start + first] + if need > first then ring[..need - first] else ""
    ensures out == stream[|stream| - need..]
  {
    forall j | 0 <= j < need ensures out[j] == stream[|stream| - need + j] {
      assert out[j] == ring[Slot(pos, |ring|, need - j)];
    }
  }

  class Ring {
    var ring: array<char>
    var pos: nat
    var histlen: nat
    var offset: nat            // master_repl_offset
    ghost var stream: string   // every byte that passed through, or was adopted with a full resync

    ghost predicate Valid()
      reads this, ring
    {
      offset == |stream| && HoldsLast(ring[..], pos, histlen, stream)
    }

    constructor (size: nat)
      ensures Valid() && fresh(ring) && ring.Length == size && stream == "" && histlen == 0
    {
      ring := new char[size](_ => '\0');
      pos, histlen, offset, stream := 0, 0, 0, "";
    }

    /** The two memcpys. */
    method Lay(bytes: string)
      requires pos < ring.Length && |bytes| <= ring.Length
      modifies ring
      ensures Laid(old(ring[..]), ring[..], pos, bytes)
    {
      var cap, len := ring.Length, |bytes|;
      var first := Min(len, cap - pos);
      forall j | 0 <= j < first { ring[pos + j] := bytes[j]; }
      if len > first {
        forall j | first <= j < len { ring[j - first] := bytes[j]; }
      }
    }

    /** `repl_backlog_feed` */
    method Feed(bytes: string)
      requires Valid()
      modifies this, ring
      ensures Valid() && ring == old(ring) && stream == old(stream) + bytes
      ensures histlen == Min(old(histlen) + |bytes|, ring.Length)
    {
      if |bytes| == 0 {
        assert stream + bytes == stream;
        return;
      }
      offset := offset + |bytes|;
      stream := stream + bytes;
      if ring.Length > 0 {
        var kept := bytes;
        if |bytes| >= ring.Length { kept := bytes[|bytes| - ring.Length..]; }
        ghost var dropped := bytes[..|bytes| - |kept|];
        assert dropped + kept == bytes;
        Store(dropped, kept, old(stream));
      }
    }

    /** The bytes that are kept go into the ring, and the cursor moves on. */
    method Store(ghost dropped: string, kept: string, ghost before: string)
      requires pos < ring.Length && HoldsLast(ring[..], pos, histlen, before) && |kept| <= ring.Length
      requires dropped == "" || |kept| == ring.Length
      modifies this`pos, this`histlen, ring
      ensures HoldsLast(ring[..], pos, histlen, before + (dropped + kept))
      ensures histlen == Min(old(histlen) + |kept|, ring.Length)
    {
      ghost var was := ring[..];
      Lay(kept);
      FedHolds(was, ring[..], pos, dropped, kept, histlen, before);
      pos := (pos + |kept|) % ring.Length;
      histlen := Min(histlen + |kept|, ring.Length);
    }

    /** `repl_backlog_copy`: the last `need` bytes, oldest first. */
    method Copy(need: nat) returns (out: string)
      requires Valid() && need <= histlen
      ensures out == stream[|stream| - need..]
    {
      if need == 0 { return ""; }
      var cap := ring.Length;
      ModOf(pos + cap - need, cap);
      var start := (pos + cap - need) % cap;
      var first := Min(need, cap - start);
      out := ring[start..start + first];
      if need > first {
        out := out + ring[..need - first];
      }
      CopiedAll(ring[..], pos, histlen, stream, need, out);
    }

    /** `+FULLRESYNC`: the offset of the master is adopted and the ring starts empty. */
    method Adopt(ghost s: string, off: nat)
      requires Valid() && off == |s|
      modifies this
      ensures Valid() && ring == old(ring) && stream == s && histlen == 0
    {
      offset, stream, pos, histlen := off, s, 0, 0;
    }

    /** `repl_backlog_start_offset`: the first byte that can still be served. */
    method StartOffset() returns (start: nat)
      requires Valid()
      ensures histlen > 0 ==> 1 <= start && |stream| - (start - 1) == histlen
      ensures histlen == 0 ==> start == 0
    {
      start := if histlen > 0 then offset - histlen + 1 else 0;
    }
  }
}
