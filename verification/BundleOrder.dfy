/** Importing two bundles in either order. */
module BundleOrder {
  import opened Basics
  import opened BundleImport

  ghost predicate SameMeaning(a: Db, b: Db)
  {
    a.Keys == b.Keys && forall k :: k in a ==> MeaningOf(a[k]) == MeaningOf(b[k])
  }

  /** The stores reached by a, by b, and by a and then b. */
  ghost predicate Stores(db: Db, a: seq<Item>, b: seq<Item>, afterA: Db, afterB: Db, both: Db)
  {
    && Sound(db)
    && ImportAll(db, a).Ok? && ImportAll(db, a).value.db == afterA
    && ImportAll(db, b).Ok? && ImportAll(db, b).value.db == afterB
    && ImportAll(afterA, b).Ok?
    && ImportAll(afterA, b).value.db == both
  }

  /** Part of a's import replayed on top of b's: as far as it has got, every row means what it means
      in the store that took a first and then b. */
  ghost predicate Replayed(x: Db, afterB: Db, both: Db, done: seq<Item>)
  {
    && x.Keys == afterB.Keys + KeysOf(done)
    && forall k :: k in x ==> k in both && MeaningOf(x[k]) == MeaningOf(both[k])
  }

  /** What a brings that b has too carries no fraction of a second. */
  ghost predicate SharedAreWhole(a: seq<Item>, b: seq<Item>)
  {
    forall i :: i in a && i.key in KeysOf(b) ==> WholeDates(i.content)
  }

  /** Once stored, item n of a means what the store with both holds; when its turn comes after b and
      the items before it, its identity is taken and it has no fraction, or it may be inserted. */
  ghost predicate Replayable(a: seq<Item>, n: nat, afterB: Db, both: Db)
    requires n < |a|
  {
    var item, keys := a[n], afterB.Keys + KeysOf(a[..n]);
    && RowMeans(both, item)
    && (if item.key in keys then WholeDates(item.content) else Obstacle(item, keys).None?)
  }

  lemma {:induction false} Replay(a: seq<Item>, afterB: Db, both: Db, n: nat)
    requires n <= |a| && Replayed(afterB, afterB, both, [])
    requires forall i :: 0 <= i < |a| ==> Replayable(a, i, afterB, both)
    ensures ImportAll(afterB, a[..n]).Ok?
    ensures Replayed(ImportAll(afterB, a[..n]).value.db, afterB, both, a[..n])
    decreases n
  {
    if n == 0 {
      assert a[..0] == [];
    } else {
      Replay(a, afterB, both, n - 1);
      ReplayStep(a, n - 1, afterB, both);
    }
  }

  lemma ReplayStep(a: seq<Item>, n: nat, afterB: Db, both: Db)
    requires n < |a| && Replayable(a, n, afterB, both)
    requires ImportAll(afterB, a[..n]).Ok? && Replayed(ImportAll(afterB, a[..n]).value.db, afterB, both, a[..n])
    ensures ImportAll(afterB, a[..n + 1]).Ok?
    ensures Replayed(ImportAll(afterB, a[..n + 1]).value.db, afterB, both, a[..n + 1])
  {
    ReplayOne(a, n, afterB, both, ImportAll(afterB, a[..n]).value.db);
    assert a[..n + 1] == a[..n] + [a[n]];
  }

  lemma ReplayOne(a: seq<Item>, n: nat, afterB: Db, both: Db, x: Db)
    requires n < |a| && Replayable(a, n, afterB, both) && Replayed(x, afterB, both, a[..n])
    ensures ImportOne(x, a[n]).Ok?
    ensures Replayed(ImportOne(x, a[n]).value.0, afterB, both, a[..n] + [a[n]])
  {
    KeysOfAppend(a[..n], a[n]);
    StoredMeaning(a[n].content);
  }

  /** What b puts into the store alone means what the store with both holds. */
  lemma BothHoldsB(db: Db, a: seq<Item>, b: seq<Item>, afterA: Db, afterB: Db, both: Db)
    requires Stores(db, a, b, afterA, afterB, both)
    ensures Replayed(afterB, afterB, both, [])
  {
    ImportIsNonDestructive(db, a);
    ImportIsNonDestructive(db, b);
    ImportIsNonDestructive(afterA, b);
    forall k | k in afterB
      ensures k in both && MeaningOf(afterB[k]) == MeaningOf(both[k])
    {
      if k !in db {
        var i :| i in b && i.key == k;
        var j :| 0 <= j < |b| && b[j] == i;
        RowOfItem(db, b, j);
        ImportKeepsSound(db, a);
        RowOfItem(afterA, b, j);
      }
    }
  }

  lemma ItemReplayable(db: Db, a: seq<Item>, b: seq<Item>, afterA: Db, afterB: Db, both: Db, n: nat)
    requires Stores(db, a, b, afterA, afterB, both) && n < |a| && SharedAreWhole(a, b)
    ensures Replayable(a, n, afterB, both)
  {
    ItemInBoth(db, a, b, afterA, afterB, both, n);
    if a[n].key !in afterB.Keys + KeysOf(a[..n]) {
      Admissible(db, a, b, afterA, afterB, both, n);
    } else {
      ImportIsNonDestructive(db, b);
      assert a[n] in a;
      if !WholeDates(a[n].content) {
        FractionalIsNew(db, a, n);
      }
    }
  }

  /** An item with a fractional date that was imported was new: what is stored never has one. */
  lemma FractionalIsNew(db: Db, a: seq<Item>, n: nat)
    requires Sound(db) && ImportAll(db, a).Ok? && n < |a| && !WholeDates(a[n].content)
    ensures a[n].key !in db.Keys + KeysOf(a[..n])
  {
    PrefixKeys(db, a, n);
    PrefixKeys(db, a, n + 1);
    assert a[..n + 1][..n] == a[..n];
    ImportPrefix(db, a[..n + 1]);
    ImportKeepsSound(db, a[..n]);
    var y := ImportAll(db, a[..n]).value.db;
    if a[n].key in y {
      SameMeaningSameDates(y[a[n].key], a[n].content);
    }
  }

  lemma ItemInBoth(db: Db, a: seq<Item>, b: seq<Item>, afterA: Db, afterB: Db, both: Db, n: nat)
    requires Stores(db, a, b, afterA, afterB, both) && n < |a|
    ensures RowMeans(both, a[n])
  {
    ImportIsNonDestructive(afterA, b);
    RowOfItem(db, a, n);
  }

  lemma Admissible(db: Db, a: seq<Item>, b: seq<Item>, afterA: Db, afterB: Db, both: Db, n: nat)
    requires Stores(db, a, b, afterA, afterB, both) && n < |a|
    requires a[n].key !in afterB.Keys + KeysOf(a[..n]) && a[n].key in both
    ensures Obstacle(a[n], afterB.Keys + KeysOf(a[..n])).None?
  {
    ImportIsNonDestructive(db, b);
    AdmittedAt(db, a, n);
    PrefixKeys(db, a, n);
    KeysInBoth(db, a, b, afterA, afterB, both, n);
    ImportKeepsSound(db, a);
    ImportKeepsSound(afterA, b);
    assert Excludes(a[n].key) * (afterB.Keys + KeysOf(a[..n])) <= Excludes(a[n].key) * both.Keys;
  }

  lemma KeysInBoth(db: Db, a: seq<Item>, b: seq<Item>, afterA: Db, afterB: Db, both: Db, n: nat)
    requires Stores(db, a, b, afterA, afterB, both) && n <= |a|
    ensures afterB.Keys + KeysOf(a[..n]) <= both.Keys
  {
    BothKeys(db, a, b, afterA, afterB, both);
    assert forall i :: i in a[..n] ==> i in a;
  }

  lemma {:induction false} PrefixKeys(db: Db, a: seq<Item>, n: nat)
    requires ImportAll(db, a).Ok? && n <= |a|
    ensures ImportAll(db, a[..n]).Ok?
    ensures ImportAll(db, a[..n]).value.db.Keys == db.Keys + KeysOf(a[..n])
    decreases |a|
  {
    if n < |a| {
      ImportPrefix(db, a);
      PrefixKeys(db, a[..|a| - 1], n);
      assert a[..|a| - 1][..n] == a[..n];
    } else {
      assert a[..n] == a;
      ImportIsNonDestructive(db, a);
    }
  }

  /** In its own run an item was admitted: matched, or inserted with its needs met. */
  lemma AdmittedAt(db: Db, a: seq<Item>, n: nat)
    requires ImportAll(db, a).Ok? && n < |a|
    ensures ImportAll(db, a[..n]).Ok?
    ensures var y := ImportAll(db, a[..n]).value.db;
      a[n].key in y || (WellFormed(a[n].key, a[n].content) && Needs(a[n].key, a[n].content) <= y.Keys)
  {
    PrefixKeys(db, a, n);
    PrefixKeys(db, a, n + 1);
    assert a[..n + 1][..n] == a[..n];
    ImportPrefix(db, a[..n + 1]);
  }

  /** Two bundles that each import alone, and import in one order, import in the other order too exactly
      when nothing the first brings that the second has too carries a fraction of a second; and then
      the two stores mean the same. */
  lemma ImportsCommute(db: Db, a: seq<Item>, b: seq<Item>, afterA: Db, afterB: Db, both: Db)
    requires Stores(db, a, b, afterA, afterB, both)
    ensures var r := ImportAll(afterB, a);
      (r.Ok? <==> SharedAreWhole(a, b)) && (r.Err? || SameMeaning(r.value.db, both))
  {
    if SharedAreWhole(a, b) {
      OtherOrder(db, a, b, afterA, afterB, both);
    }
    if ImportAll(afterB, a).Ok? {
      SharedMustBeWhole(db, a, b, afterB);
    }
  }

  lemma OtherOrder(db: Db, a: seq<Item>, b: seq<Item>, afterA: Db, afterB: Db, both: Db)
    requires Stores(db, a, b, afterA, afterB, both) && SharedAreWhole(a, b)
    ensures ImportAll(afterB, a).Ok?
    ensures SameMeaning(ImportAll(afterB, a).value.db, both)
  {
    BothHoldsB(db, a, b, afterA, afterB, both);
    forall i | 0 <= i < |a|
      ensures Replayable(a, i, afterB, both)
    {
      ItemReplayable(db, a, b, afterA, afterB, both, i);
    }
    Replay(a, afterB, both, |a|);
    assert a[..|a|] == a;
    BothKeys(db, a, b, afterA, afterB, both);
  }

  lemma BothKeys(db: Db, a: seq<Item>, b: seq<Item>, afterA: Db, afterB: Db, both: Db)
    requires Stores(db, a, b, afterA, afterB, both)
    ensures both.Keys == afterB.Keys + KeysOf(a)
  {
    ImportIsNonDestructive(db, a);
    ImportIsNonDestructive(db, b);
    ImportIsNonDestructive(afterA, b);
  }

  lemma SharedMustBeWhole(db: Db, a: seq<Item>, b: seq<Item>, afterB: Db)
    requires Sound(db) && ImportAll(db, b).Ok? && ImportAll(db, b).value.db == afterB && ImportAll(afterB, a).Ok?
    ensures SharedAreWhole(a, b)
  {
    ImportIsNonDestructive(db, b);
    ImportKeepsSound(db, b);
    forall i | i in a && i.key in KeysOf(b)
      ensures WholeDates(i.content)
    {
      var j :| 0 <= j < |a| && a[j] == i;
      EveryItemChecked(afterB, a, j);
      SameMeaningSameDates(afterB[i.key], i.content);
    }
  }

  function FractionalEvent(t: int): Item
  {
    Item(EventKey("PRODUCT", "p", 1), Event("released", t, 0, "", [], "", "", "", [], None, "", "", []))
  }

  lemma ImportSingle(db: Db, item: Item)
    ensures ImportAll(db, [item]).Ok? <==> ImportOne(db, item).Ok?
    ensures ImportOne(db, item).Ok? ==> ImportAll(db, [item]).value.db == ImportOne(db, item).value.0
    ensures ImportOne(db, item).Err? ==> ImportAll(db, [item]) == Err(ImportOne(db, item).error)
  {
    assert [item][..0] == [];
  }

  /** With a fractional date the order does matter: the bundle that carries it goes in first or not
      at all. */
  lemma OrderMattersForFractions()
    ensures var a, b := [FractionalEvent(SECOND / 2)], [FractionalEvent(0)];
      && ImportAll(map[], a).Ok? && ImportAll(map[], b).Ok?
      && ImportAll(ImportAll(map[], a).value.db, b).Ok?
      && ImportAll(ImportAll(map[], b).value.db, a) == Err(IdentityConflict)
  {
    var a, b := FractionalEvent(SECOND / 2), FractionalEvent(0);
    ImportSingle(map[], a);
    ImportSingle(map[], b);
    ImportSingle(map[a.key := Stored(a.content)], b);
    ImportSingle(map[b.key := Stored(b.content)], a);
  }
}
