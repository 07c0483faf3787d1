/** Snapshots between backends whose tools may differ. */
module SnapshotGate {
  import opened Core
  import opened Registry
  import Sessions
  import Utf8

  type Backend<!D, !P> = Sessions.Backend<D, P>

  /** A snapshot taken over one set of tools is accepted over another exactly if the names of the tools
      are the same and the engine loads it; otherwise the answer names the mismatch, and nothing is
      stored. The tools may differ in everything but their names. */
  lemma TransferExactly<D, P>(sha: string -> seq<Utf8.Byte>, here: map<string, Tool>, there: map<string, Tool>,
                              b: Backend<D, P>, b': Backend<D, P>, m: Sessions.Store<D>, m': Sessions.Store<D>,
                              id: string, newId: string)
    requires CollisionFree(sha) && WellKeyed(here) && WellKeyed(there)
    requires b.digest == CapabilityDigest(sha, here) && b'.digest == CapabilityDigest(sha, there) && b.magic == b'.magic
    requires Sessions.KeyedById(m) && id in m && b.dump(m[id].state).Ok?
    ensures var taken := Sessions.Serial(b, m, Sessions.Op<P>.Snapshot(id)).1.blob;
      && taken.Ok?
      && var (after, reply) := Sessions.Serial(b', m', Sessions.Restore(taken.value, Some(newId)));
         var loaded := b'.load(newId, m[id].limits, b.dump(m[id].state).value);
         && (reply.id.Ok? <==> here.Keys == there.Keys && loaded.Ok?)
         && (reply.id.Ok? ==> after == m'[newId := Sessions.Session(newId, m[id].limits, loaded.value)])
         && (reply.id.Err? ==> after == m')
         && (here.Keys != there.Keys ==> reply.id.Err? && reply.id.error.code == "SNAPSHOT_CAPABILITY_MISMATCH")
  {
    DigestIdentifiesNames(sha, here, there);
    Sessions.SnapshotExactly(b, m, id);
    var blob := Sessions.Serial(b, m, Sessions.Op<P>.Snapshot(id)).1.blob.value;
    Sessions.RestoreExactly(b', m', blob, Some(newId));
    hide *;
  }
}
