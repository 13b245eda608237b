/**
 The authoritative slot store and the write buffer of one execution. A transaction is a
 sequence of database statements of which any may fail; `statements` is the number of them
 that succeed before one does.
 */
module SlotStore {

  type Key = string

  datatype Option<+T> = None | Some(value: T)

  /** Buffered writes; None marks a deletion. */
  type Writes = map<Key, Option<string>>

  /** base with every buffered write applied. */
  function Overlay(base: map<Key, string>, writes: Writes): map<Key, string> {
    map k | k in base.Keys + writes.Keys && (k in writes ==> writes[k].Some?) ::
      if k in writes then writes[k].value else base[k]
  }

  /** The writes that a merge may carry out. */
  function Unmarked(writes: Writes, authority: set<Key>): Writes {
    map k | k in writes && k !in authority :: writes[k]
  }

  function Merged(kv: map<Key, string>, authority: set<Key>, writes: Writes): map<Key, string> {
    Overlay(kv, Unmarked(writes, authority))
  }

  lemma OverlayOne(base: map<Key, string>, writes: Writes, k: Key, w: Option<string>)
    requires k !in writes
    ensures Overlay(base, writes[k := w])
         == if w.Some? then Overlay(base, writes)[k := w.value] else Overlay(base, writes) - {k}
  {
    var l, r := Overlay(base, writes[k := w]),
      if w.Some? then Overlay(base, writes)[k := w.value] else Overlay(base, writes) - {k};
    assert l.Keys == r.Keys;
  }

  lemma OverlayNothing(base: map<Key, string>)
    ensures Overlay(base, map[]) == base
  {
    assert Overlay(base, map[]).Keys == base.Keys;
  }

  lemma MergedNothing(kv: map<Key, string>, authority: set<Key>)
    ensures Merged(kv, authority, map[]) == kv
  {
    OverlayNothing(kv);
    assert Unmarked(map[], authority) == map[];
  }

  /** Merging one more write: marked keys change nothing. */
  lemma MergedOne(kv: map<Key, string>, authority: set<Key>, writes: Writes, k: Key, w: Option<string>)
    requires k !in writes
    ensures Merged(kv, authority, writes[k := w])
         == var m := Merged(kv, authority, writes);
            if k in authority then m else if w.Some? then m[k := w.value] else m - {k}
  {
    if k in authority {
      assert Unmarked(writes[k := w], authority) == Unmarked(writes, authority);
    } else {
      assert Unmarked(writes[k := w], authority) == Unmarked(writes, authority)[k := w];
      OverlayOne(kv, Unmarked(writes, authority), k, w);
    }
  }

  ghost predicate NoDuplicates(keys: seq<Key>) {
    forall i, j | 0 <= i < j < |keys| :: keys[i] != keys[j]
  }

  lemma NoDuplicatesAppend(keys: seq<Key>, k: Key)
    ensures NoDuplicates([])
    ensures NoDuplicates(keys) && k !in keys ==> NoDuplicates(keys + [k])
  {
  }

  class SlotStore {
    var kv: map<Key, string>
    var authority: set<Key>

    constructor ()
      ensures kv == map[] && authority == {}
    {
      kv, authority := map[], {};
    }

    /** Value and mark out of one snapshot; a missing value reads as the empty string. */
    method GetAuth(key: Key, statements: nat) returns (ok: bool, value: string, marked: bool)
      ensures ok <==> statements >= 3
      ensures ok ==> value == (if key in kv then kv[key] else "") && (marked <==> key in authority)
    {
      if statements < 3 {
        return false, "", false;
      }
      ok := true;
      value := if key in kv then kv[key] else "";
      marked := key in authority;
    }

    /** Value and mark land together or not at all. */
    method UnlockWrite(key: Key, value: string, statements: nat) returns (ok: bool)
      modifies this
      ensures ok ==> kv == old(kv)[key := value] && authority == old(authority) + {key}
      ensures !ok ==> unchanged(this)
      ensures ok <==> statements >= 4
    {
      if statements < 1 {
        return false;
      }
      var txKv, txAuthority := kv, authority;
      if statements < 2 {
        return false;
      }
      txKv := txKv[key := value];
      if statements < 3 {
        return false;
      }
      txAuthority := txAuthority + {key};
      if statements < 4 {
        return false;
      }
      kv, authority := txKv, txAuthority;
      ok := true;
    }

    /** Removing a value keeps its mark. */
    method Delete(key: Key, statements: nat) returns (ok: bool)
      modifies `kv
      ensures ok <==> statements >= 1
      ensures kv == if ok then old(kv) - {key} else old(kv)
    {
      ok := statements >= 1;
      if ok {
        kv := kv - {key};
      }
    }

    /**
     The buffered writes in one transaction, in whatever order the map yields them. Marked
     keys are skipped and reported; a failing statement undoes everything.
     */
    method Merge(writes: Writes, statements: nat) returns (ok: bool, dropped: seq<Key>)
      modifies `kv
      ensures ok ==> kv == Merged(old(kv), authority, writes)
      ensures ok ==> (forall k :: k in dropped <==> k in writes && k in authority)
      ensures ok ==> NoDuplicates(dropped)
      ensures !ok ==> kv == old(kv) && dropped == []
      ensures statements >= 2 + 2 * |writes| ==> ok
      ensures ok ==> statements >= 2
    {
      hide Overlay, Merged, NoDuplicates;
      dropped := [];
      NoDuplicatesAppend([], "");
      MergedNothing(kv, authority);
      if statements < 1 {
        return false, [];
      }
      var left: nat := statements - 1;
      var tx := kv;
      var todo := writes.Keys;
      ghost var done: Writes := map[];
      while todo != {}
        invariant kv == old(kv)
        invariant todo <= writes.Keys && done.Keys == writes.Keys - todo
        invariant IsPart(done, writes)
        invariant tx == Merged(kv, authority, done)
        invariant forall k :: k in dropped <==> k in done && k in authority
        invariant NoDuplicates(dropped)
        invariant left < statements
        invariant statements >= 2 + 2 * |writes| ==> left >= 1 + 2 * |todo|
        decreases |todo|
      {
        var k :| k in todo;
        todo := todo - {k};
        MergedOne(kv, authority, done, k, writes[k]);
        done := done[k := writes[k]];
        if left < 1 {
          return false, [];
        }
        left := left - 1;
        if k in authority {
          NoDuplicatesAppend(dropped, k);
          dropped := dropped + [k];
          continue;
        }
        if left < 1 {
          return false, [];
        }
        left := left - 1;
        tx := if writes[k] == None then tx - {k} else tx[k := writes[k].value];
      }
      assert done == writes;
      if left < 1 {
        return false, [];
      }
      kv := tx;
      ok := true;
    }
  }

  /** Some of the buffered writes. */
  ghost predicate IsPart(part: Writes, writes: Writes) {
    forall k <- part :: k in writes && part[k] == writes[k]
  }

  lemma NoPart(writes: Writes)
    ensures IsPart(map[], writes)
  {
  }

  lemma PartGrows(part: Writes, writes: Writes, k: Key)
    requires IsPart(part, writes) && k in writes
    ensures IsPart(part[k := writes[k]], writes)
  {
  }

  lemma PartComplete(part: Writes, writes: Writes)
    requires IsPart(part, writes) && part.Keys == writes.Keys
    ensures part == writes
  {
  }

  /** The buffer of one execution over a base it reads through to. */
  class StorageTx {
    var base: map<Key, string>
    var writes: Writes

    constructor (base: map<Key, string>)
      ensures this.base == base && writes == map[] && View() == base
    {
      this.base, writes := base, map[];
      OverlayNothing(base);
    }

    /** What the execution sees: its own writes over the base. */
    function View(): map<Key, string>
      reads this
    {
      Overlay(base, writes)
    }

    method Get(key: Key) returns (r: Option<string>)
      ensures r == if key in View() then Some(View()[key]) else None
    {
      if key in writes {
        return writes[key];
      }
      r := if key in base then Some(base[key]) else None;
    }

    method Set(key: Key, value: string)
      modifies `writes
      ensures View() == old(View())[key := value]
    {
      writes := writes[key := Some(value)];
      assert View().Keys == old(View()).Keys + {key};
    }

    method Delete(key: Key)
      modifies `writes
      ensures View() == old(View()) - {key}
    {
      writes := writes[key := None];
      assert View().Keys == old(View()).Keys - {key};
    }

    method Snapshot() returns (copy: Writes)
      ensures copy == writes
    {
      var todo := writes.Keys;
      copy := map[];
      while todo != {}
        invariant todo <= writes.Keys && copy.Keys == writes.Keys - todo
        invariant forall k <- copy :: copy[k] == writes[k]
        decreases |todo|
      {
        var k :| k in todo;
        copy := copy[k := writes[k]];
        todo := todo - {k};
      }
    }

    /**
     The writes applied one by one, in any order. Either way the buffer is empty afterwards;
     when a write fails, some of the keys have taken their new value and the others kept theirs.
     */
    method Commit(sets: nat) returns (ok: bool)
      modifies this
      ensures writes == map[]
      ensures ok ==> base == old(View())
      ensures sets >= |old(writes)| ==> ok
      ensures exists done :: IsPart(done, old(writes)) && base == Overlay(old(base), done)
    {
      hide Overlay, IsPart;
      var todo := writes.Keys;
      var left := sets;
      NoPart(writes);
      ghost var done: Writes := map[];
      OverlayNothing(base);
      while todo != {}
        invariant writes == old(writes)
        invariant todo <= writes.Keys && done.Keys == writes.Keys - todo
        invariant IsPart(done, writes)
        invariant base == Overlay(old(base), done)
        invariant sets >= |writes| ==> left >= |todo|
        decreases |todo|
      {
        var k :| k in todo;
        todo := todo - {k};
        PartGrows(done, writes, k);
        if writes[k] == None {
          OverlayOne(old(base), done, k, None);
          done := done[k := None];
          base := base - {k};
          continue;
        }
        if left == 0 {
          writes := map[];
          return false;
        }
        left := left - 1;
        OverlayOne(old(base), done, k, writes[k]);
        done := done[k := writes[k]];
        base := base[k := writes[k].value];
      }
      PartComplete(done, writes);
      writes := map[];
      ok := true;
    }

    /** Starting over and rolling back are the same: the buffered writes are gone. */
    method Drop()
      modifies `writes
      ensures View() == base
    {
      writes := map[];
      OverlayNothing(base);
    }
  }

  // ---- what a handler reads ----

  /** The read primitive of a handler: the store first, then, for unmarked keys, its own buffer. */
  function HandlerGet(kv: map<Key, string>, authority: set<Key>, writes: Writes, key: Key): Option<string> {
    var stored := if key in kv then kv[key] else "";
    if key !in authority && key in writes && writes[key].Some? then writes[key]
    else if stored == "" then None
    else Some(stored)
  }

  /** A read that sees all of the handler's own writes to unmarked keys. */
  function ReadYourWrites(kv: map<Key, string>, authority: set<Key>, writes: Writes, key: Key): Option<string> {
    if key !in authority && key in writes then writes[key]
    else if key in kv && kv[key] != "" then Some(kv[key])
    else None
  }

  /** The handler sees its own writes except its deletions of values that are still stored. */
  lemma HandlerGetMisses(kv: map<Key, string>, authority: set<Key>, writes: Writes, key: Key)
    ensures HandlerGet(kv, authority, writes, key) == ReadYourWrites(kv, authority, writes, key)
      <==> !(key !in authority && key in writes && writes[key] == None && key in kv && kv[key] != "")
  {
  }

  /** A deletion that the handler does not see. */
  lemma HandlerGetExample()
    ensures HandlerGet(map["k" := "v"], {}, map["k" := None], "k") == Some("v")
    ensures ReadYourWrites(map["k" := "v"], {}, map["k" := None], "k") == None
  {
  }
}
