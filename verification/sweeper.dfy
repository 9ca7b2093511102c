/** The retention sweep (`clean_old_tmp_files`): deletes every file of the
    store whose age exceeds the threshold, whatever kind or job it belongs to.
 */
module Sweeper {
  import opened Records

  /** A file is expired when it is strictly older than the threshold. */
  predicate Expired(mtime: int, now: int, maxAgeSeconds: int) {
    now - mtime > maxAgeSeconds
  }

  /** One directory's worth of the sweep: drop the expired entries, keep the rest verbatim. */
  function Prune<K, V>(m: map<K, Stamped<V>>, now: int, maxAgeSeconds: int): (r: map<K, Stamped<V>>)
    ensures forall k :: k in m && !Expired(m[k].mtime, now, maxAgeSeconds) ==> k in r
    ensures forall k :: k in r ==> k in m && !Expired(m[k].mtime, now, maxAgeSeconds) && r[k] == m[k]
  {
    map k | k in m && !Expired(m[k].mtime, now, maxAgeSeconds) :: m[k]
  }

  /** The sweep over all four kinds of record, with the threshold given in minutes. */
  function Sweep(store: Store, now: int, maxAgeMinutes: int): (r: Store)
    ensures forall id :: id in r.progress <==>
              id in store.progress && !Expired(store.progress[id].mtime, now, maxAgeMinutes * 60)
    ensures forall id :: id in r.output <==>
              id in store.output && !Expired(store.output[id].mtime, now, maxAgeMinutes * 60)
    ensures forall id :: id in r.cancel <==>
              id in store.cancel && !Expired(store.cancel[id].mtime, now, maxAgeMinutes * 60)
    ensures forall a :: a in r.audio <==>
              a in store.audio && !Expired(store.audio[a].mtime, now, maxAgeMinutes * 60)
    ensures forall id :: id in r.progress ==> r.progress[id] == store.progress[id]
    ensures forall id :: id in r.output ==> r.output[id] == store.output[id]
    ensures forall id :: id in r.cancel ==> r.cancel[id] == store.cancel[id]
    ensures forall a :: a in r.audio ==> r.audio[a] == store.audio[a]
  {
    var maxAgeSeconds := maxAgeMinutes * 60;
    Store(
      Prune(store.progress, now, maxAgeSeconds),
      Prune(store.output, now, maxAgeSeconds),
      Prune(store.cancel, now, maxAgeSeconds),
      Prune(store.audio, now, maxAgeSeconds))
  }

  /** Any file no older than the threshold, of whatever kind, survives the sweep unchanged. */
  lemma FreshSurvives(store: Store, id: string, now: int, maxAgeMinutes: int)
    ensures var r := Sweep(store, now, maxAgeMinutes);
            && (id in store.progress && now - store.progress[id].mtime <= maxAgeMinutes * 60 ==>
                  id in r.progress && r.progress[id] == store.progress[id])
            && (id in store.output && now - store.output[id].mtime <= maxAgeMinutes * 60 ==>
                  id in r.output && r.output[id] == store.output[id])
            && (id in store.cancel && now - store.cancel[id].mtime <= maxAgeMinutes * 60 ==>
                  id in r.cancel && r.cancel[id] == store.cancel[id])
            && (forall a :: a in store.audio && a.id == id && now - store.audio[a].mtime <= maxAgeMinutes * 60 ==>
                  a in r.audio && r.audio[a] == store.audio[a])
  {
  }

  /** Sweeping again later removes nothing the later sweep alone would keep:
      an earlier sweep is absorbed by a later one. In particular the sweep is idempotent. */
  lemma SweepAbsorbs(store: Store, now1: int, now2: int, maxAgeMinutes: int)
    requires now1 <= now2
    ensures Sweep(Sweep(store, now1, maxAgeMinutes), now2, maxAgeMinutes) == Sweep(store, now2, maxAgeMinutes)
  {
  }
}
