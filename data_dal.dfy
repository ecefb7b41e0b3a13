/** The bulk upserts of `src/lib/EXAMPLE_DATA/dal.ts`: copy the caller's
    rows, strip the server-managed `id` and `created_at`, collapse rows
    that agree on everything but the non-unique properties, send the
    representatives to the store, and spread the returned ids back over
    the original positions. The store (Supabase's `upsert(...).select("id")`)
    is the parameter `store`. */
module DataDal {
  import opened Wrappers
  import opened Json
  import opened CoreErrors
  import opened CoreUtils
  import opened DataTypes

  /** The store's answer: the ids of the returned rows, in order, or an error. */
  datatype StoreReply = Inserted(ids: seq<int>) | StoreFailed(error: Thrown)

  /** The store returns one row per submitted row. */
  ghost predicate StoreContract(store: seq<Record> -> StoreReply) {
    forall rows :: store(rows).Inserted? ==> |store(rows).ids| == |rows|
  }

  /** The properties the database assigns, deleted before the upsert. */
  const ServerManaged: set<string> := {"id", "created_at"}

  function StripAll(rows: seq<Record>): (r: seq<Record>)
    ensures |r| == |rows|
    ensures forall i :: 0 <= i < |rows| ==> r[i] == rows[i] - ServerManaged
  {
    seq(|rows|, i requires 0 <= i < |rows| => rows[i] - ServerManaged)
  }

  /** The rows sent to the store: one representative per group of stripped
      rows that agree outside `ignored`. */
  function Submitted(rows: seq<Record>, ignored: set<string>): seq<Record> {
    FirstOccurrences(StripAll(rows), KeepAll(), DedupeKey(ignored))
  }

  /** The index of the representative that stands for row `i`. */
  ghost function Slot(rows: seq<Record>, ignored: set<string>, i: int): (j: int)
    requires 0 <= i < |rows|
    ensures 0 <= j < |Submitted(rows, ignored)|
  {
    FirstOccurrencesCover(StripAll(rows), KeepAll(), DedupeKey(ignored));
    assert !KeepAll<Record>()(StripAll(rows)[i]);
    KeyIndex(Submitted(rows, ignored), DedupeKey(ignored), StripAll(rows)[i] - ignored)
  }

  function Max(a: int, b: int): int { if a < b then b else a }

  /** The error the upsert throws when the store reports one. */
  function UpsertError(code: string, message: string, count: int, origin: Thrown, now: string): Thrown {
    AppErr(CreateAppError(Frame(DAL, code, Some(message), map["count" := Num(count)], None), now, origin))
  }

  /** The outcome of an upsert of `rows` given the store's reply. A reply
      with too few rows makes `recreate_id_array` read `.id` of a
      missing row; a reply with extra rows leaves `null` entries after
      the last input position. */
  ghost function UpsertOutcome(rows: seq<Record>, ignored: set<string>, reply: StoreReply,
                               code: string, message: string, now: string): Result<seq<Option<int>>, Thrown>
  {
    match reply
    case StoreFailed(e) => Failure(UpsertError(code, message, |Submitted(rows, ignored)|, e, now))
    case Inserted(ids) =>
      if |ids| < |Submitted(rows, ignored)| then Failure(MissingRowError)
      else Success(seq(Max(|rows|, |ids|), i requires 0 <= i < Max(|rows|, |ids|) =>
                         if i < |rows| then Some(ids[Slot(rows, ignored, i)]) else None))
  }

  /** Every representative stands for at least one row: the row it came from. */
  lemma EverySlotIsUsed(rows: seq<Record>, ignored: set<string>, j: int)
    requires 0 <= j < |Submitted(rows, ignored)|
    ensures exists i :: 0 <= i < |rows| && Slot(rows, ignored, i) == j
  {
    var stripped := StripAll(rows);
    var key := DedupeKey(ignored);
    var sub := Submitted(rows, ignored);
    FirstOccurrencesMembers(stripped, KeepAll(), key);
    FirstOccurrencesDistinct(stripped, KeepAll(), key);
    var i :| 0 <= i < |stripped| && stripped[i] == sub[j];
    KeyIndexFirst(sub, key, key(sub[j]));
    assert key(stripped[i]) == stripped[i] - ignored;
    assert Slot(rows, ignored, i) == j;
  }

  /** The pipeline shared by DAL_upsert_products and DAL_upsert_categories.
      It has no `modifies` clause: the caller's rows are never changed. */
  method UpsertRows(input: array<Record>, ignored: set<string>, store: seq<Record> -> StoreReply,
                    code: string, message: string, now: string) returns (r: Result<seq<Option<int>>, Thrown>)
    ensures r == UpsertOutcome(input[..], ignored, store(Submitted(input[..], ignored)), code, message, now)
  {
    // dupe: a copy the caller cannot observe
    var data := new Record[input.Length](i requires 0 <= i < input.Length reads input => input[i]);
    var i := 0;
    while i < data.Length
      invariant 0 <= i <= data.Length
      invariant forall j :: 0 <= j < i ==> data[j] == input[j] - ServerManaged
      invariant forall j :: i <= j < data.Length ==> data[j] == input[j]
    {
      data[i] := data[i] - ServerManaged;
      i := i + 1;
    }
    assert data[..] == StripAll(input[..]);
    var items, positions := DeduplicateArray(data[..], KeepAll(), ignored);
    var reply := store(items);
    if reply.StoreFailed? {
      return Failure(UpsertError(code, message, |items|, reply.error, now));
    }
    r := RecreateIdArray(reply.ids, positions);
    RecreateMatchesOutcome(input[..], ignored, reply.ids, items, positions, r);
  }

  /** Bridges the two steps to the outcome function. */
  lemma RecreateMatchesOutcome(rows: seq<Record>, ignored: set<string>, ids: seq<int>,
                               items: seq<Record>, positions: map<nat, int>, r: Result<seq<Option<int>>, Thrown>)
    requires items == Submitted(rows, ignored)
    requires forall i: nat :: i in positions <==> i < |rows|
    requires forall i :: 0 <= i < |rows| ==> positions[i] == Slot(rows, ignored, i)
    requires r.Failure? <==> exists k :: k in positions && !Resolvable(|ids|, positions[k])
    requires r.Failure? ==> r.error == MissingRowError
    requires r.Success? ==>
      && |r.value| >= |ids|
      && (forall k :: k in positions ==> k < |r.value|)
      && (|r.value| > |ids| ==> (|r.value| - 1) in positions)
    requires r.Success? ==> forall k :: 0 <= k < |r.value| ==>
      r.value[k] == if k !in positions then None
                    else if positions[k] == -1 then Some(-1) else Some(ids[positions[k]])
    ensures r == UpsertOutcome(rows, ignored, Inserted(ids), "", "", "")
  {
    if |ids| < |items| {
      EverySlotIsUsed(rows, ignored, |items| - 1);
      var i :| 0 <= i < |rows| && Slot(rows, ignored, i) == |items| - 1;
      assert i in positions && !Resolvable(|ids|, positions[i]);
    } else {
      assert forall k :: k in positions ==> Resolvable(|ids|, positions[k]);
      assert r.Success?;
      var v := r.value;
      if |rows| > 0 {
        assert (|rows| - 1) in positions;
      }
      assert |v| == Max(|rows|, |ids|);
      var w := UpsertOutcome(rows, ignored, Inserted(ids), "", "", "").value;
      assert |w| == |v|;
      forall k | 0 <= k < |v|
        ensures v[k] == w[k]
      {
        if k < |rows| {
          assert k in positions && positions[k] == Slot(rows, ignored, k);
        } else {
          assert k !in positions;
        }
      }
      assert v == w;
    }
  }

  ghost function ProductsOutcome(rows: seq<Record>, store: seq<Record> -> StoreReply, now: string): Result<seq<Option<int>>, Thrown> {
    UpsertOutcome(rows, ProductNonuniqueProps, store(Submitted(rows, ProductNonuniqueProps)),
                  "upsert_products_failed", "Failed to upsert products", now)
  }

  ghost function CategoriesOutcome(rows: seq<Record>, store: seq<Record> -> StoreReply, now: string): Result<seq<Option<int>>, Thrown> {
    UpsertOutcome(rows, CategoryNonuniqueProps, store(Submitted(rows, CategoryNonuniqueProps)),
                  "upsert_categories_failed", "Failed to upsert categories", now)
  }

  /** DAL_upsert_products: deduplicated on everything but the non-unique
      product properties, so in effect on `sku`. */
  method UpsertProducts(products: array<Record>, store: seq<Record> -> StoreReply, now: string)
    returns (r: Result<seq<Option<int>>, Thrown>)
    ensures r == ProductsOutcome(products[..], store, now)
  {
    r := UpsertRows(products, ProductNonuniqueProps, store, "upsert_products_failed", "Failed to upsert products", now);
  }

  /** DAL_upsert_categories: deduplicated in effect on `slug`. */
  method UpsertCategories(categories: array<Record>, store: seq<Record> -> StoreReply, now: string)
    returns (r: Result<seq<Option<int>>, Thrown>)
    ensures r == CategoriesOutcome(categories[..], store, now)
  {
    r := UpsertRows(categories, CategoryNonuniqueProps, store, "upsert_categories_failed", "Failed to upsert categories", now);
  }

  /** When the store keeps its contract the upsert never fails after the
      store answered, and every position of the input, and none beyond,
      receives one of the store's ids. */
  lemma UpsertSucceedsUnderStoreContract(rows: seq<Record>, ignored: set<string>, store: seq<Record> -> StoreReply,
                                         ids: seq<int>, code: string, message: string, now: string)
    requires StoreContract(store)
    requires store(Submitted(rows, ignored)) == Inserted(ids)
    ensures UpsertOutcome(rows, ignored, Inserted(ids), code, message, now).Success?
    ensures |UpsertOutcome(rows, ignored, Inserted(ids), code, message, now).value| == |rows|
    ensures forall i :: 0 <= i < |rows| ==>
      UpsertOutcome(rows, ignored, Inserted(ids), code, message, now).value[i] == Some(ids[Slot(rows, ignored, i)])
  {
    assert |ids| == |Submitted(rows, ignored)|;
    FirstOccurrencesLength(StripAll(rows), KeepAll(), DedupeKey(ignored));
  }

  /** A store failure returns no ids: it is thrown as a chain of one DAL
      frame with the upsert's code and message and the number of rows
      submitted, and the store's error is kept as the origin. */
  lemma StoreFailureIsOneDalFrame(rows: seq<Record>, ignored: set<string>, e: Thrown,
                                  code: string, message: string, now: string)
    ensures UpsertOutcome(rows, ignored, StoreFailed(e), code, message, now).Failure?
    ensures UpsertOutcome(rows, ignored, StoreFailed(e), code, message, now).error.AppErr?
    ensures UpsertOutcome(rows, ignored, StoreFailed(e), code, message, now).error.error.frames ==
      [Frame(DAL, code, Some(message), map["count" := Num(|Submitted(rows, ignored)|)], Some(now))]
    ensures UpsertOutcome(rows, ignored, StoreFailed(e), code, message, now).error.error.origin == e
    ensures |Submitted(rows, ignored)| <= |rows|
  {
    FirstOccurrencesLength(StripAll(rows), KeepAll(), DedupeKey(ignored));
  }

  /** Two rows share a slot, hence an id, exactly when they agree on every
      property outside `ignored` and the server-managed ones; the slot
      holds the first such row. */
  lemma SlotMeaning(rows: seq<Record>, ignored: set<string>, i: int, j: int)
    requires 0 <= i < |rows| && 0 <= j < |rows|
    ensures Slot(rows, ignored, i) == Slot(rows, ignored, j) <==>
      (rows[i] - ServerManaged) - ignored == (rows[j] - ServerManaged) - ignored
    ensures Submitted(rows, ignored)[Slot(rows, ignored, i)] - ignored == (rows[i] - ServerManaged) - ignored
    ensures IsFirstOf(StripAll(rows), KeepAll(), DedupeKey(ignored), j)
         && (rows[i] - ServerManaged) - ignored == (rows[j] - ServerManaged) - ignored
        ==> Submitted(rows, ignored)[Slot(rows, ignored, i)] == rows[j] - ServerManaged
  {
    var key := DedupeKey(ignored);
    var stripped := StripAll(rows);
    assert key(stripped[i]) == (rows[i] - ServerManaged) - ignored;
    assert key(stripped[j]) == (rows[j] - ServerManaged) - ignored;
    FirstOccurrencesRepresent(stripped, KeepAll(), key);
  }

  /** The store never sees an `id` or a `created_at`. */
  lemma SubmittedRowsAreStripped(rows: seq<Record>, ignored: set<string>)
    ensures forall j :: 0 <= j < |Submitted(rows, ignored)| ==>
      "id" !in Submitted(rows, ignored)[j] && "created_at" !in Submitted(rows, ignored)[j]
  {
    FirstOccurrencesMembers(StripAll(rows), KeepAll(), DedupeKey(ignored));
  }

  /** For rows shaped like `Product_Schema`, the deduplication key is the
      `sku` alone: two products collapse exactly when their skus agree. */
  lemma ProductsCollapseIffSameSku(r1: Record, r2: Record)
    requires r1.Keys <= ProductSchemaProps && r2.Keys <= ProductSchemaProps
    ensures (r1 - ServerManaged) - ProductNonuniqueProps == (r2 - ServerManaged) - ProductNonuniqueProps
        <==> Get(r1, ProductUniqueProp) == Get(r2, ProductUniqueProp)
  {
    KeyIsUniqueProp(r1, r2, ProductSchemaProps, ProductNonuniqueProps, ProductUniqueProp);
  }

  /** For rows shaped like `Category_Schema`, the key is the `slug` alone. */
  lemma CategoriesCollapseIffSameSlug(r1: Record, r2: Record)
    requires r1.Keys <= CategorySchemaProps && r2.Keys <= CategorySchemaProps
    ensures (r1 - ServerManaged) - CategoryNonuniqueProps == (r2 - ServerManaged) - CategoryNonuniqueProps
        <==> Get(r1, CategoryUniqueProp) == Get(r2, CategoryUniqueProp)
  {
    KeyIsUniqueProp(r1, r2, CategorySchemaProps, CategoryNonuniqueProps, CategoryUniqueProp);
  }

  lemma KeyIsUniqueProp(r1: Record, r2: Record, schema: set<string>, nonunique: set<string>, unique: string)
    requires unique !in ServerManaged && unique !in nonunique
    requires schema == ServerManaged + {unique} + nonunique
    requires r1.Keys <= schema && r2.Keys <= schema
    ensures (r1 - ServerManaged) - nonunique == (r2 - ServerManaged) - nonunique <==> Get(r1, unique) == Get(r2, unique)
  {
    var k1 := (r1 - ServerManaged) - nonunique;
    var k2 := (r2 - ServerManaged) - nonunique;
    assert k1.Keys <= {unique} && k2.Keys <= {unique};
    assert unique in k1 <==> unique in r1;
    assert unique in k2 <==> unique in r2;
    if Get(r1, unique) == Get(r2, unique) {
      assert k1 == k2;
    }
    if k1 == k2 {
      if unique in r1 {
        assert k1[unique] == r1[unique];
      }
    }
  }
}
