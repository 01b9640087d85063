/** The ring of `Backlog` serves what the protocol of `Replication` asks of it. */
module BacklogLink {
  import opened Common
  import opened Backlog
  import R = Replication

  /** The ring belongs to a server with these replication fields. */
  ghost predicate Shows(b: Ring, v: R.Node)
    reads b, b.ring
  {
    b.Valid() && b.stream == v.hist && b.histlen == v.histlen && b.ring.Length == v.cap
  }

  /** `repl_backlog_feed` moves the server as `Replication.Feed` says. */
  method FeedServer(b: Ring, ghost v: R.Node, bytes: string)
    requires Shows(b, v)
    modifies b, b.ring
    ensures Shows(b, R.Feed(v, bytes)) && b.ring == old(b.ring)
  {
    b.Feed(bytes);
  }

  /** The backlog's part of `do_psync`: whether every byte from `want` on can be served, and those bytes. */
  method Serve(b: Ring, ghost v: R.Node, want: nat) returns (ok: bool, out: string)
    requires Shows(b, v)
    ensures ok <==> v.cap > 0 && 0 < want <= |v.hist| + 1 && |v.hist[want - 1..]| <= v.histlen
    ensures ok ==> v.hist == v.hist[..want - 1] + out
    ensures ok <==> R.Partial(v, Some((v.id, want)))
    ensures ok ==> out == R.Last(v, |v.hist| + 1 - want)
  {
    out := "";
    var next := b.offset + 1;
    ok := b.ring.Length > 0 && want > 0 && want <= next && next - want <= b.histlen;
    if ok { out := b.Copy(next - want); }
  }

  /** `+FULLRESYNC` adopts the offset of the master, and the backlog starts empty. */
  method AdoptServer(b: Ring, ghost v: R.Node, z: R.Id, ghost hist: string, off: nat)
    requires Shows(b, v) && off == |hist|
    modifies b
    ensures Shows(b, R.Header'(v, R.FullResync(z, hist))) && b.ring == old(b.ring)
  {
    b.Adopt(hist, off);
  }
}
