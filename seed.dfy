/**
 * The catalogue seeding command (shop/management/commands/seed_products.py): every product
 * is switched off, then six fixed products are written by name, updating the row that
 * already carries the name or creating it.
 */
module Seed {
  import opened Wrappers
  import opened Models

  // ---------------------------------------------------------------------------
  // The seed data

  /** One entry of the command's product list; the price is in cents. */
  datatype SeedEntry = SeedEntry(name: string, description: string, cause: string, priceCents: nat, imageUrl: string)

  const Cause: string := "Cantina Missionaria"

  const PastelQtoName: string := "Pastel Queijo, Tomate e Oregano"
  const PastelQtoDescription: string := "Pastel artesanal recheado com queijo, tomate e oregano."
  const PastelQtoImage: string := "https://images.unsplash.com/photo-1621852004158-f3bc188ace2d?auto=format&fit=crop&w=900&q=80"
  const PastelQmpName: string := "Pastel Queijo, Milho e PVT"
  const PastelQmpDescription: string := "Pastel artesanal com queijo, milho e proteina vegetal texturizada."
  const PastelQmpImage: string := "https://images.unsplash.com/photo-1608039829572-78524f79c4c7?auto=format&fit=crop&w=900&q=80"
  const ComboQtoSucoName: string := "Combo Pastel QTO + Suco"
  const ComboQtoSucoDescription: string := "1 pastel queijo, tomate e oregano + 1 suco."
  const ComboQtoSucoImage: string := "https://images.unsplash.com/photo-1613478223719-2ab802602423?auto=format&fit=crop&w=900&q=80"
  const ComboQtoGuaranaName: string := "Combo Pastel QTO + Guarana"
  const ComboQtoGuaranaDescription: string := "1 pastel queijo, tomate e oregano + 1 guarana."
  const ComboQtoGuaranaImage: string := "https://images.unsplash.com/photo-1622480916113-f2f5b8f4e5cb?auto=format&fit=crop&w=900&q=80"
  const ComboQmpSucoName: string := "Combo Pastel QMP + Suco"
  const ComboQmpSucoDescription: string := "1 pastel queijo, milho e PVT + 1 suco."
  const ComboQmpSucoImage: string := "https://images.unsplash.com/photo-1532635241-17e820acc59f?auto=format&fit=crop&w=900&q=80"
  const ComboQmpGuaranaName: string := "Combo Pastel QMP + Guarana"
  const ComboQmpGuaranaDescription: string := "1 pastel queijo, milho e PVT + 1 guarana."
  const ComboQmpGuaranaImage: string := "https://images.unsplash.com/photo-1513558161293-cdaf765ed2fd?auto=format&fit=crop&w=900&q=80"

  const Seeds: seq<SeedEntry> := [
    SeedEntry(PastelQtoName, PastelQtoDescription, Cause, 1200, PastelQtoImage),
    SeedEntry(PastelQmpName, PastelQmpDescription, Cause, 1200, PastelQmpImage),
    SeedEntry(ComboQtoSucoName, ComboQtoSucoDescription, Cause, 1500, ComboQtoSucoImage),
    SeedEntry(ComboQtoGuaranaName, ComboQtoGuaranaDescription, Cause, 1500, ComboQtoGuaranaImage),
    SeedEntry(ComboQmpSucoName, ComboQmpSucoDescription, Cause, 1500, ComboQmpSucoImage),
    SeedEntry(ComboQmpGuaranaName, ComboQmpGuaranaDescription, Cause, 1500, ComboQmpGuaranaImage)
  ]

  /** The row a seed entry is written as: its data with active=True. */
  function SeedProduct(e: SeedEntry): (p: Product)
    ensures p.name == e.name && p.active
  {
    Product(e.name, e.description, e.cause, e.priceCents, e.imageUrl, true)
  }

  /** The two pastels cost 12.00 and the four combos 15.00. */
  lemma SeedPrices()
    ensures |Seeds| == 6
    ensures Seeds[0].priceCents == 1200 && Seeds[1].priceCents == 1200
    ensures forall i :: 2 <= i < 6 ==> Seeds[i].priceCents == 1500
    ensures forall i :: 0 <= i < 6 ==> Seeds[i].cause == Cause
  {
  }

  predicate DistinctNames(seeds: seq<SeedEntry>)
  {
    forall i, j :: 0 <= i < j < |seeds| ==> seeds[i].name != seeds[j].name
  }

  const SeedNames: seq<string> :=
    [PastelQtoName, PastelQmpName, ComboQtoSucoName, ComboQtoGuaranaName, ComboQmpSucoName, ComboQmpGuaranaName]

  lemma SeedNamesListed()
    ensures |Seeds| == |SeedNames| && forall i :: 0 <= i < |Seeds| ==> Seeds[i].name == SeedNames[i]
  {
  }

  lemma NameListDistinct()
    ensures forall i, j :: 0 <= i < j < |SeedNames| ==> SeedNames[i] != SeedNames[j]
  {
    assert |PastelQtoName| == 31 && |PastelQmpName| == 26;
    assert PastelQmpName[7] == 'Q' && ComboQtoGuaranaName[7] == 'a' && ComboQmpGuaranaName[7] == 'a';
    assert |ComboQtoSucoName| == 23 && |ComboQtoGuaranaName| == 26 && |ComboQmpSucoName| == 23 && |ComboQmpGuaranaName| == 26;
    assert ComboQtoSucoName[14] == 'T' && ComboQmpSucoName[14] == 'M';
    assert ComboQtoGuaranaName[14] == 'T' && ComboQmpGuaranaName[14] == 'M';
  }

  /** No two seed entries share a name. */
  lemma SeedNamesDistinct()
    ensures DistinctNames(Seeds)
  {
    SeedNamesListed();
    NameListDistinct();
  }

  /** name is the name of one of the entries. */
  predicate NamedIn(name: string, seeds: seq<SeedEntry>)
  {
    seeds != [] && (seeds[0].name == name || NamedIn(name, seeds[1..]))
  }

  /** The first entry with the given name. */
  function SeedFor(seeds: seq<SeedEntry>, name: string): (e: SeedEntry)
    requires NamedIn(name, seeds)
    ensures e.name == name
  {
    if seeds[0].name == name then seeds[0] else SeedFor(seeds[1..], name)
  }

  lemma {:induction false} NamedInAt(seeds: seq<SeedEntry>, i: nat)
    requires i < |seeds|
    ensures NamedIn(seeds[i].name, seeds)
    ensures DistinctNames(seeds) ==> SeedFor(seeds, seeds[i].name) == seeds[i]
  {
    if i > 0 {
      NamedInAt(seeds[1..], i - 1);
      if DistinctNames(seeds) {
        assert seeds[0].name != seeds[i].name;
        assert DistinctNames(seeds[1..]);
      }
    }
  }

  /** The first entry's name occurs nowhere else. */
  lemma {:induction false} NotNamedInRest(seeds: seq<SeedEntry>, name: string)
    requires seeds != [] && DistinctNames(seeds) && name == seeds[0].name
    ensures !NamedIn(name, seeds[1..])
  {
    if NamedIn(name, seeds[1..]) {
      NamedInIndex(seeds[1..], name);
    }
  }

  lemma {:induction false} NamedInIndex(seeds: seq<SeedEntry>, name: string)
    requires NamedIn(name, seeds)
    ensures exists i :: 0 <= i < |seeds| && seeds[i].name == name
  {
    if seeds[0].name != name {
      NamedInIndex(seeds[1..], name);
      var i :| 0 <= i < |seeds| - 1 && seeds[1..][i].name == name;
      assert seeds[i + 1].name == name;
    }
  }

  /** A name is listed among the seeds exactly when it is in a list of their names. */
  lemma {:induction false} NamedInListed(seeds: seq<SeedEntry>, names: seq<string>, name: string)
    requires |seeds| == |names| && forall i :: 0 <= i < |seeds| ==> seeds[i].name == names[i]
    ensures NamedIn(name, seeds) <==> name in names
  {
    if seeds != [] {
      NamedInListed(seeds[1..], names[1..], name);
      assert names == [names[0]] + names[1..];
    }
  }

  // ---------------------------------------------------------------------------
  // The Product table

  /** The table and the id the database would give the next row it creates. */
  datatype TableState = TableState(rows: Catalogue, nextId: nat)

  predicate IdsBelow(st: TableState)
  {
    forall id :: id in st.rows ==> id < st.nextId
  }

  /** Product.objects.update(active=False). */
  function Deactivated(st: TableState): (r: TableState)
    ensures r.nextId == st.nextId && r.rows.Keys == st.rows.Keys
    ensures forall id :: id in st.rows ==> r.rows[id] == st.rows[id].(active := false)
  {
    TableState(map id | id in st.rows :: st.rows[id].(active := false), st.nextId)
  }

  predicate HasName(rows: Catalogue, name: string)
  {
    exists id :: id in rows && rows[id].name == name
  }

  /** At most one row carries the name. */
  predicate AtMostOne(rows: Catalogue, name: string)
  {
    forall a, b :: a in rows && b in rows && rows[a].name == name && rows[b].name == name ==> a == b
  }

  /** The ids below n of the rows named name, in increasing order (the lookup by name). */
  function MatchingIds(rows: Catalogue, name: string, n: nat): (ids: seq<nat>)
    ensures forall i :: 0 <= i < |ids| ==> ids[i] < n && ids[i] in rows && rows[ids[i]].name == name
  {
    if n == 0 then []
    else MatchingIds(rows, name, n - 1) + (if n - 1 in rows && rows[n - 1].name == name then [n - 1] else [])
  }

  lemma {:induction false} MatchingIdsComplete(rows: Catalogue, name: string, n: nat, id: nat)
    requires id < n && id in rows && rows[id].name == name
    ensures id in MatchingIds(rows, name, n)
  {
    if id < n - 1 {
      MatchingIdsComplete(rows, name, n - 1, id);
    }
  }

  lemma {:induction false} MatchingIdsAtMostOne(rows: Catalogue, name: string, n: nat)
    requires AtMostOne(rows, name)
    ensures |MatchingIds(rows, name, n)| <= 1
  {
    if n > 0 {
      MatchingIdsAtMostOne(rows, name, n - 1);
      if n - 1 in rows && rows[n - 1].name == name {
        forall id | id < n - 1 && id in rows
          ensures rows[id].name != name
        {
        }
        MatchingIdsNone(rows, name, n - 1);
      }
    }
  }

  lemma {:induction false} MatchingIdsNone(rows: Catalogue, name: string, n: nat)
    requires forall id :: id < n && id in rows ==> rows[id].name != name
    ensures MatchingIds(rows, name, n) == []
  {
    if n > 0 {
      MatchingIdsNone(rows, name, n - 1);
    }
  }

  lemma TwoMembers<T>(s: seq<T>, a: T, b: T)
    requires a in s && b in s && a != b
    ensures |s| >= 2
  {
  }

  /** The lookup by name finds all rows with it: none, one, or several. */
  lemma MatchingIdsMeaning(st: TableState, name: string)
    requires IdsBelow(st)
    ensures var ids := MatchingIds(st.rows, name, st.nextId);
      && (|ids| == 0 <==> !HasName(st.rows, name))
      && (|ids| <= 1 <==> AtMostOne(st.rows, name))
      && (|ids| == 1 ==> forall id :: id in st.rows && st.rows[id].name == name ==> id == ids[0])
  {
    var ids := MatchingIds(st.rows, name, st.nextId);
    if |ids| > 0 {
      assert st.rows[ids[0]].name == name;
    }
    if HasName(st.rows, name) {
      var id :| id in st.rows && st.rows[id].name == name;
      MatchingIdsComplete(st.rows, name, st.nextId, id);
    }
    if AtMostOne(st.rows, name) {
      MatchingIdsAtMostOne(st.rows, name, st.nextId);
    } else {
      var a, b :| a in st.rows && b in st.rows && st.rows[a].name == name && st.rows[b].name == name && a != b;
      MatchingIdsComplete(st.rows, name, st.nextId, a);
      MatchingIdsComplete(st.rows, name, st.nextId, b);
      TwoMembers(ids, a, b);
    }
    if |ids| == 1 {
      forall id | id in st.rows && st.rows[id].name == name
        ensures id == ids[0]
      {
        MatchingIdsComplete(st.rows, name, st.nextId, id);
      }
    }
  }

  /** Raised by update_or_create when several rows carry the name. */
  datatype SeedError = MultipleObjectsReturned(name: string)

  /** Product.objects.update_or_create(name=e.name, defaults={**e, 'active': True}). */
  function Upsert(st: TableState, e: SeedEntry): Result<TableState, SeedError>
  {
    var ids := MatchingIds(st.rows, e.name, st.nextId);
    if |ids| == 0 then Ok(TableState(st.rows[st.nextId := SeedProduct(e)], st.nextId + 1))
    else if |ids| == 1 then Ok(TableState(st.rows[ids[0] := SeedProduct(e)], st.nextId))
    else Err(MultipleObjectsReturned(e.name))
  }

  /**
   * update_or_create fails exactly when the name is ambiguous. Otherwise the single row
   * with the name, old or new, holds the entry; every other row is untouched; no id is
   * dropped; and a row is created only when none had the name.
   */
  lemma UpsertEffect(st: TableState, e: SeedEntry)
    requires IdsBelow(st)
    ensures Upsert(st, e).Ok? <==> AtMostOne(st.rows, e.name)
    ensures Upsert(st, e).Ok? ==>
      var r := Upsert(st, e).value;
      && IdsBelow(r) && st.nextId <= r.nextId
      && (forall id :: id in st.rows ==> id in r.rows && r.rows[id].name == st.rows[id].name)
      && (forall id :: id in st.rows && st.rows[id].name != e.name ==> r.rows[id] == st.rows[id])
      && (forall id :: id in r.rows && (id !in st.rows || st.rows[id].name == e.name) ==> r.rows[id] == SeedProduct(e))
      && (forall id :: id in r.rows && id !in st.rows ==> r.rows[id].name == e.name)
      && HasName(r.rows, e.name) && AtMostOne(r.rows, e.name)
      && (HasName(st.rows, e.name) ==> r.rows.Keys == st.rows.Keys && r.nextId == st.nextId)
  {
    MatchingIdsMeaning(st, e.name);
    var ids := MatchingIds(st.rows, e.name, st.nextId);
    if |ids| == 0 {
      var r := Upsert(st, e).value;
      assert r.rows[st.nextId].name == e.name;
    } else if |ids| == 1 {
      var r := Upsert(st, e).value;
      assert r.rows[ids[0]].name == e.name;
    }
  }

  /** Names other than the entry's keep their rows, so the same rows carry them. */
  lemma UpsertOtherNames(st: TableState, e: SeedEntry, name: string)
    requires IdsBelow(st) && AtMostOne(st.rows, e.name) && name != e.name
    ensures Upsert(st, e).Ok?
    ensures HasName(Upsert(st, e).value.rows, name) <==> HasName(st.rows, name)
    ensures AtMostOne(Upsert(st, e).value.rows, name) <==> AtMostOne(st.rows, name)
  {
    UpsertEffect(st, e);
    var r := Upsert(st, e).value;
    if HasName(r.rows, name) {
      var id :| id in r.rows && r.rows[id].name == name;
      assert id in st.rows && st.rows[id] == r.rows[id];
    }
    if HasName(st.rows, name) {
      var id :| id in st.rows && st.rows[id].name == name;
      assert r.rows[id].name == name;
    }
    if AtMostOne(st.rows, name) {
      forall a, b | a in r.rows && b in r.rows && r.rows[a].name == name && r.rows[b].name == name
        ensures a == b
      {
        assert a in st.rows && b in st.rows;
      }
    }
    if AtMostOne(r.rows, name) {
      forall a, b | a in st.rows && b in st.rows && st.rows[a].name == name && st.rows[b].name == name
        ensures a == b
      {
        assert r.rows[a].name == name && r.rows[b].name == name;
      }
    }
  }

  // ---------------------------------------------------------------------------
  // The command

  /** The table after a run, and the error that stopped it, if any. */
  datatype Outcome = Outcome(state: TableState, error: Option<SeedError>)

  /** The loop over the entries: upserts in order, stopping at the first error. */
  function SeedAll(st: TableState, seeds: seq<SeedEntry>): Outcome
    decreases |seeds|
  {
    if seeds == [] then Outcome(st, None)
    else match Upsert(st, seeds[0])
      case Err(err) => Outcome(st, Some(err))
      case Ok(next) => SeedAll(next, seeds[1..])
  }

  /** A run of the command with the given entries: deactivate everything, then the loop. */
  function Run(st: TableState, seeds: seq<SeedEntry>): Outcome
  {
    SeedAll(Deactivated(st), seeds)
  }

  /** Command.handle. */
  function HandleSpec(st: TableState): Outcome
  {
    Run(st, Seeds)
  }

  predicate Unambiguous(rows: Catalogue, seeds: seq<SeedEntry>)
  {
    forall i :: 0 <= i < |seeds| ==> AtMostOne(rows, seeds[i].name)
  }

  /**
   * The loop's effect when no name is ambiguous: it succeeds, no row is lost or renamed,
   * rows under other names are untouched, and every row that now or already carried an
   * entry's name holds that entry.
   */
  lemma {:induction false} SeedAllEffect(st: TableState, seeds: seq<SeedEntry>)
    requires IdsBelow(st) && DistinctNames(seeds) && Unambiguous(st.rows, seeds)
    ensures SeedAll(st, seeds).error.None?
    ensures var r := SeedAll(st, seeds).state;
      && IdsBelow(r)
      && (forall id :: id in st.rows ==> id in r.rows && r.rows[id].name == st.rows[id].name)
      && (forall id :: id in st.rows && !NamedIn(st.rows[id].name, seeds) ==> r.rows[id] == st.rows[id])
      && (forall id :: id in r.rows && (id !in st.rows || NamedIn(st.rows[id].name, seeds)) ==>
            NamedIn(r.rows[id].name, seeds) && r.rows[id] == SeedProduct(SeedFor(seeds, r.rows[id].name)))
    decreases |seeds|
  {
    if seeds != [] {
      var e := seeds[0];
      var rest := seeds[1..];
      assert AtMostOne(st.rows, e.name);
      UpsertEffect(st, e);
      var next := Upsert(st, e).value;
      assert DistinctNames(rest);
      forall i | 0 <= i < |rest|
        ensures AtMostOne(next.rows, rest[i].name)
      {
        assert rest[i] == seeds[i + 1];
        UpsertOtherNames(st, e, rest[i].name);
      }
      SeedAllEffect(next, rest);
      NotNamedInRest(seeds, e.name);
      var r := SeedAll(st, seeds).state;
      assert r == SeedAll(next, rest).state;
      forall id | id in r.rows && (id !in st.rows || NamedIn(st.rows[id].name, seeds))
        ensures NamedIn(r.rows[id].name, seeds) && r.rows[id] == SeedProduct(SeedFor(seeds, r.rows[id].name))
      {
        if id in next.rows && next.rows[id].name == e.name {
          assert r.rows[id] == next.rows[id] == SeedProduct(e);
        } else {
          assert id in next.rows ==> NamedIn(next.rows[id].name, rest);
          assert NamedIn(r.rows[id].name, rest);
          if r.rows[id].name == e.name {
            assert false;
          }
        }
      }
    }
  }

  /** After the loop every entry's name is carried by exactly one row. */
  lemma {:induction false} SeedAllCovers(st: TableState, seeds: seq<SeedEntry>)
    requires IdsBelow(st) && DistinctNames(seeds) && Unambiguous(st.rows, seeds)
    ensures forall i :: 0 <= i < |seeds| ==>
      HasName(SeedAll(st, seeds).state.rows, seeds[i].name) && AtMostOne(SeedAll(st, seeds).state.rows, seeds[i].name)
    decreases |seeds|
  {
    if seeds != [] {
      var e := seeds[0];
      var rest := seeds[1..];
      assert AtMostOne(st.rows, e.name);
      UpsertEffect(st, e);
      var next := Upsert(st, e).value;
      assert DistinctNames(rest);
      forall i | 0 <= i < |rest|
        ensures AtMostOne(next.rows, rest[i].name)
      {
        assert rest[i] == seeds[i + 1];
        UpsertOtherNames(st, e, rest[i].name);
      }
      SeedAllCovers(next, rest);
      SeedAllEffect(next, rest);
      NotNamedInRest(seeds, e.name);
      var r := SeedAll(next, rest).state;
      assert SeedAll(st, seeds).state == r;
      forall i | 0 <= i < |seeds|
        ensures HasName(r.rows, seeds[i].name) && AtMostOne(r.rows, seeds[i].name)
      {
        if i == 0 {
          var id :| id in next.rows && next.rows[id].name == e.name;
          assert r.rows[id].name == e.name;
          forall a, b | a in r.rows && b in r.rows && r.rows[a].name == e.name && r.rows[b].name == e.name
            ensures a == b
          {
            assert a in next.rows && b in next.rows;
          }
        } else {
          assert seeds[i] == rest[i - 1];
        }
      }
    }
  }

  /** When every entry's name already has a row, the loop creates nothing. */
  lemma {:induction false} SeedAllCreatesNothing(st: TableState, seeds: seq<SeedEntry>)
    requires IdsBelow(st) && DistinctNames(seeds) && Unambiguous(st.rows, seeds)
    requires forall i :: 0 <= i < |seeds| ==> HasName(st.rows, seeds[i].name)
    ensures SeedAll(st, seeds).state.rows.Keys == st.rows.Keys
    ensures SeedAll(st, seeds).state.nextId == st.nextId
    decreases |seeds|
  {
    if seeds != [] {
      var e := seeds[0];
      var rest := seeds[1..];
      assert AtMostOne(st.rows, e.name) && HasName(st.rows, e.name);
      UpsertEffect(st, e);
      var next := Upsert(st, e).value;
      assert DistinctNames(rest);
      forall i | 0 <= i < |rest|
        ensures AtMostOne(next.rows, rest[i].name) && HasName(next.rows, rest[i].name)
      {
        assert rest[i] == seeds[i + 1];
        UpsertOtherNames(st, e, rest[i].name);
      }
      SeedAllCreatesNothing(next, rest);
    }
  }

  /** The loop stops with an error once it reaches an ambiguous name. */
  lemma {:induction false} SeedAllFails(st: TableState, seeds: seq<SeedEntry>, i: nat)
    requires IdsBelow(st) && DistinctNames(seeds) && i < |seeds| && !AtMostOne(st.rows, seeds[i].name)
    ensures SeedAll(st, seeds).error.Some?
    decreases |seeds|
  {
    var e := seeds[0];
    UpsertEffect(st, e);
    if i > 0 && AtMostOne(st.rows, e.name) {
      assert DistinctNames(seeds[1..]);
      assert seeds[1..][i - 1] == seeds[i];
      UpsertOtherNames(st, e, seeds[i].name);
      SeedAllFails(Upsert(st, e).value, seeds[1..], i - 1);
    }
  }

  /** A run fails exactly when some entry's name is carried by several rows. */
  lemma RunFailsIff(st: TableState, seeds: seq<SeedEntry>)
    requires IdsBelow(st) && DistinctNames(seeds)
    ensures Run(st, seeds).error.None? <==> Unambiguous(st.rows, seeds)
  {
    var d := Deactivated(st);
    assert Unambiguous(d.rows, seeds) <==> Unambiguous(st.rows, seeds);
    if Unambiguous(st.rows, seeds) {
      SeedAllEffect(d, seeds);
    } else {
      var i :| 0 <= i < |seeds| && !AtMostOne(d.rows, seeds[i].name);
      SeedAllFails(d, seeds, i);
    }
  }

  /**
   * After a successful run a product is active exactly when its name is an entry's, and
   * every row carrying an entry's name holds that entry's data.
   */
  lemma RunActivates(st: TableState, seeds: seq<SeedEntry>)
    requires IdsBelow(st) && DistinctNames(seeds) && Unambiguous(st.rows, seeds)
    ensures var r := Run(st, seeds).state;
      && (forall id :: id in r.rows ==> (r.rows[id].active <==> NamedIn(r.rows[id].name, seeds)))
      && (forall id, i :: id in r.rows && 0 <= i < |seeds| && r.rows[id].name == seeds[i].name ==>
            r.rows[id] == SeedProduct(seeds[i]))
  {
    SeedAllEffect(Deactivated(st), seeds);
    var r := Run(st, seeds).state;
    forall id, i | id in r.rows && 0 <= i < |seeds| && r.rows[id].name == seeds[i].name
      ensures r.rows[id] == SeedProduct(seeds[i])
    {
      NamedInAt(seeds, i);
    }
  }

  /** After a successful run each entry's name is carried by exactly one row. */
  lemma RunOneRowPerSeed(st: TableState, seeds: seq<SeedEntry>)
    requires IdsBelow(st) && DistinctNames(seeds) && Unambiguous(st.rows, seeds)
    ensures forall i :: 0 <= i < |seeds| ==>
      HasName(Run(st, seeds).state.rows, seeds[i].name) && AtMostOne(Run(st, seeds).state.rows, seeds[i].name)
  {
    SeedAllCovers(Deactivated(st), seeds);
  }

  /**
   * No row is deleted or gets a new id: a row already carrying an entry's name is updated
   * in place, and every other existing row is only switched off.
   */
  lemma RunKeepsRows(st: TableState, seeds: seq<SeedEntry>)
    requires IdsBelow(st) && DistinctNames(seeds) && Unambiguous(st.rows, seeds)
    ensures var r := Run(st, seeds).state;
      && (forall id :: id in st.rows ==> id in r.rows)
      && (forall id, i :: id in st.rows && 0 <= i < |seeds| && st.rows[id].name == seeds[i].name ==>
            r.rows[id] == SeedProduct(seeds[i]))
      && (forall id :: id in st.rows && !NamedIn(st.rows[id].name, seeds) ==>
            r.rows[id] == st.rows[id].(active := false))
  {
    SeedAllEffect(Deactivated(st), seeds);
    RunActivates(st, seeds);
  }

  /** The table a successful run leaves is one the next run can seed without creating rows. */
  lemma RerunSeedable(st: TableState, seeds: seq<SeedEntry>)
    requires IdsBelow(st) && DistinctNames(seeds) && Unambiguous(st.rows, seeds)
    ensures var d2 := Deactivated(Run(st, seeds).state);
      && IdsBelow(d2) && Unambiguous(d2.rows, seeds)
      && (forall i :: 0 <= i < |seeds| ==> HasName(d2.rows, seeds[i].name))
  {
    SeedAllEffect(Deactivated(st), seeds);
    RunOneRowPerSeed(st, seeds);
    var r := Run(st, seeds).state;
    var d2 := Deactivated(r);
    forall i | 0 <= i < |seeds|
      ensures HasName(d2.rows, seeds[i].name) && AtMostOne(d2.rows, seeds[i].name)
    {
      var id :| id in r.rows && r.rows[id].name == seeds[i].name;
      assert d2.rows[id].name == seeds[i].name;
    }
  }

  /** Running a second time leaves the table as the first run left it. */
  lemma RunIdempotent(st: TableState, seeds: seq<SeedEntry>)
    requires IdsBelow(st) && DistinctNames(seeds) && Unambiguous(st.rows, seeds)
    ensures Run(Run(st, seeds).state, seeds) == Outcome(Run(st, seeds).state, None)
  {
    RerunSeedable(st, seeds);
    RunActivates(st, seeds);
    var r := Run(st, seeds).state;
    var d2 := Deactivated(r);
    SeedAllEffect(d2, seeds);
    SeedAllCreatesNothing(d2, seeds);
    var r2 := Run(r, seeds).state;
    forall id | id in r2.rows
      ensures r2.rows[id] == r.rows[id]
    {
      if NamedIn(d2.rows[id].name, seeds) {
        NamedInIndex(seeds, r.rows[id].name);
        var i :| 0 <= i < |seeds| && seeds[i].name == r.rows[id].name;
        NamedInAt(seeds, i);
      }
    }
    assert r2.rows == r.rows;
  }

  /** No seeded name is carried by two rows beforehand. */
  predicate Seedable(st: TableState)
  {
    Unambiguous(st.rows, Seeds)
  }

  /** The command fails exactly when some seeded name is carried by several rows. */
  lemma HandleFailsIff(st: TableState)
    requires IdsBelow(st)
    ensures HandleSpec(st).error.None? <==> Seedable(st)
  {
    SeedNamesDistinct();
    RunFailsIff(st, Seeds);
  }

  /** After the command a product is active exactly when its name is seeded, with the seed's data. */
  lemma HandleActivatesSeeds(st: TableState)
    requires IdsBelow(st) && Seedable(st)
    ensures var r := HandleSpec(st).state;
      && (forall id :: id in r.rows ==> (r.rows[id].active <==> r.rows[id].name in SeedNames))
      && (forall id, i :: id in r.rows && 0 <= i < |Seeds| && r.rows[id].name == Seeds[i].name ==>
            r.rows[id] == SeedProduct(Seeds[i]))
  {
    SeedNamesDistinct();
    RunActivates(st, Seeds);
    SeedNamesListed();
    var r := HandleSpec(st).state;
    forall id | id in r.rows
      ensures NamedIn(r.rows[id].name, Seeds) <==> r.rows[id].name in SeedNames
    {
      NamedInListed(Seeds, SeedNames, r.rows[id].name);
    }
  }

  /** After the command each seeded name is carried by exactly one row. */
  lemma HandleOneRowPerSeed(st: TableState)
    requires IdsBelow(st) && Seedable(st)
    ensures forall i :: 0 <= i < |Seeds| ==>
      HasName(HandleSpec(st).state.rows, Seeds[i].name) && AtMostOne(HandleSpec(st).state.rows, Seeds[i].name)
  {
    SeedNamesDistinct();
    RunOneRowPerSeed(st, Seeds);
  }

  /** The command deletes no row and re-uses the id of a row already carrying a seeded name. */
  lemma HandleKeepsRows(st: TableState)
    requires IdsBelow(st) && Seedable(st)
    ensures var r := HandleSpec(st).state;
      && (forall id :: id in st.rows ==> id in r.rows)
      && (forall id, i :: id in st.rows && 0 <= i < |Seeds| && st.rows[id].name == Seeds[i].name ==>
            r.rows[id] == SeedProduct(Seeds[i]))
      && (forall id :: id in st.rows && !NamedIn(st.rows[id].name, Seeds) ==>
            r.rows[id] == st.rows[id].(active := false))
  {
    SeedNamesDistinct();
    RunKeepsRows(st, Seeds);
  }

  /** Running the command a second time leaves the table as the first run left it. */
  lemma HandleIdempotent(st: TableState)
    requires IdsBelow(st) && Seedable(st)
    ensures HandleSpec(HandleSpec(st).state) == Outcome(HandleSpec(st).state, None)
  {
    SeedNamesDistinct();
    RunIdempotent(st, Seeds);
  }

  /** The Product table, updated in place by the command. */
  class ProductTable {
    var rows: Catalogue
    var nextId: nat

    function State(): TableState
      reads this
    {
      TableState(rows, nextId)
    }

    ghost predicate Valid()
      reads this
    {
      IdsBelow(State())
    }

    constructor(rows: Catalogue, nextId: nat)
      requires IdsBelow(TableState(rows, nextId))
      ensures Valid() && State() == TableState(rows, nextId)
    {
      this.rows := rows;
      this.nextId := nextId;
    }

    method DeactivateAll()
      requires Valid()
      modifies this
      ensures Valid() && State() == Deactivated(old(State()))
    {
      rows := map id | id in rows :: rows[id].(active := false);
    }

    /** update_or_create for one entry: None on success, the error when the name is ambiguous. */
    method UpdateOrCreate(e: SeedEntry) returns (failure: Option<SeedError>)
      requires Valid()
      modifies this
      ensures Valid()
      ensures Upsert(old(State()), e).Err? ==> failure == Some(Upsert(old(State()), e).error) && State() == old(State())
      ensures Upsert(old(State()), e).Ok? ==> failure == None && State() == Upsert(old(State()), e).value
    {
      UpsertEffect(State(), e);
      var ids := MatchingIds(rows, e.name, nextId);
      if |ids| == 0 {
        rows := rows[nextId := SeedProduct(e)];
        nextId := nextId + 1;
        failure := None;
      } else if |ids| == 1 {
        rows := rows[ids[0] := SeedProduct(e)];
        failure := None;
      } else {
        failure := Some(MultipleObjectsReturned(e.name));
      }
    }
  }

  /** Command.handle on the table: deactivate everything, then upsert each entry in order. */
  method Handle(table: ProductTable) returns (error: Option<SeedError>)
    requires table.Valid()
    modifies table
    ensures table.Valid()
    ensures Outcome(table.State(), error) == HandleSpec(old(table.State()))
  {
    table.DeactivateAll();
    for i := 0 to |Seeds|
      invariant table.Valid()
      invariant SeedAll(table.State(), Seeds[i..]) == HandleSpec(old(table.State()))
    {
      assert Seeds[i..][0] == Seeds[i] && Seeds[i..][1..] == Seeds[i + 1..];
      var failure := table.UpdateOrCreate(Seeds[i]);
      if failure.Some? {
        return failure;
      }
    }
    assert Seeds[|Seeds|..] == [];
    return None;
  }
}
