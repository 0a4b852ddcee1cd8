/** Filling the master form from extraction results: per field the most confident reading, per factory only
    readings that belong to it, and a list of what the supplier should look at. */
module Prefill {
  import opened Options
  import opened Coercion
  import opened Selections

  type Field = string
  type FactoryId = nat

  /** An extraction result. A confidence that cannot be read as a number is None. */
  datatype Record = Record(parsed: map<Field, Value>, confidence: map<Field, Option<real>>,
                           factory: Option<FactoryId>, confirmed: bool)

  function Confidence(r: Record, k: Field): real {
    if k in r.confidence && r.confidence[k].Some? then r.confidence[k].value else 0.0
  }

  /** A confidence that is missing or unreadable counts as none. */
  lemma ConfidenceExactly(r: Record, k: Field, x: real)
    ensures k in r.confidence && r.confidence[k] == Some(x) ==> Confidence(r, k) == x
    ensures k !in r.confidence || r.confidence[k].None? ==> Confidence(r, k) == 0.0
  {
  }

  /** A reading with its confidence. */
  datatype Pick = Pick(value: Value, confidence: real)

  type Picks = map<Field, Pick>

  function Readings(r: Record, keys: set<Field>): Picks {
    map k | k in r.parsed && k in keys :: Pick(r.parsed[k], Confidence(r, k))
  }

  /** Both tables merged; only a strictly more confident reading displaces one of t. */
  function Combined(t: Picks, u: Picks): Picks {
    map k | k in t.Keys + u.Keys ::
      if k in t && (k !in u || u[k].confidence <= t[k].confidence) then t[k] else u[k]
  }

  function Best(records: seq<Record>): Picks {
    if records == [] then map[]
    else
      var r := records[|records| - 1];
      Combined(Best(records[..|records| - 1]), Readings(r, r.parsed.Keys))
  }

  /** Record i supplies p: no reading of k is more confident, and every earlier one is less confident. */
  ghost predicate IsBest(records: seq<Record>, k: Field, p: Pick, i: nat) {
    && i < |records| && k in records[i].parsed
    && p == Pick(records[i].parsed[k], Confidence(records[i], k))
    && forall j | 0 <= j < |records| && k in records[j].parsed ::
         if j < i then Confidence(records[j], k) < p.confidence else Confidence(records[j], k) <= p.confidence
  }

  /** A field is in the merged table exactly when some record reads it. */
  lemma {:induction false} NothingIsLost(records: seq<Record>, k: Field)
    ensures k in Best(records) <==> exists i :: 0 <= i < |records| && k in records[i].parsed
  {
    if records == [] {
    } else {
      var front, n := records[..|records| - 1], |records| - 1;
      NothingIsLost(front, k);
      assert k in Best(records) <==> k in Best(front) || k in records[n].parsed;
      if k in Best(front) {
        var i: nat :| i < n && k in front[i].parsed;
        assert k in records[i].parsed;
      }
      forall i | 0 <= i < n && k in records[i].parsed ensures k in Best(front) {
        assert k in front[i].parsed;
      }
    }
  }

  lemma BestStays(front: seq<Record>, r: Record, k: Field, p: Pick, i: nat)
    requires IsBest(front, k, p, i) && (k in r.parsed ==> Confidence(r, k) <= p.confidence)
    ensures IsBest(front + [r], k, p, i)
  {
    var records := front + [r];
    forall j | 0 <= j < |records| && k in records[j].parsed
      ensures if j < i then Confidence(records[j], k) < p.confidence else Confidence(records[j], k) <= p.confidence
    {
      assert j < |front| ==> records[j] == front[j];
    }
  }

  lemma BestIsDisplaced(front: seq<Record>, r: Record, k: Field)
    requires k in r.parsed
    requires forall j | 0 <= j < |front| && k in front[j].parsed :: Confidence(front[j], k) < Confidence(r, k)
    ensures IsBest(front + [r], k, Pick(r.parsed[k], Confidence(r, k)), |front|)
  {
  }

  /** Each field holds the value of the earliest record with maximal confidence, and nothing is lost. */
  lemma {:induction false} FirstMostConfidentWins(records: seq<Record>, k: Field)
    ensures k in Best(records) <==> exists i :: 0 <= i < |records| && k in records[i].parsed
    ensures k in Best(records) ==> exists i :: IsBest(records, k, Best(records)[k], i)
  {
    NothingIsLost(records, k);
    if k in Best(records) {
      var i := BestRecord(records, k);
    }
  }

  lemma {:induction false} BestRecord(records: seq<Record>, k: Field) returns (i: nat)
    requires k in Best(records)
    ensures IsBest(records, k, Best(records)[k], i)
  {
    var front, r := records[..|records| - 1], records[|records| - 1];
    assert records == front + [r];
    if k !in Best(front) {
      NothingIsLost(front, k);
      BestIsDisplaced(front, r, k);
      i := |front|;
    } else {
      i := BestRecord(front, k);
      if k in r.parsed && Confidence(r, k) > Best(front)[k].confidence {
        BestIsDisplaced(front, r, k);
        i := |front|;
      } else {
        BestStays(front, r, k, Best(front)[k], i);
      }
    }
  }

  lemma BestIsUnique(records: seq<Record>, k: Field, p: Pick, q: Pick, i: nat, j: nat)
    requires IsBest(records, k, p, i) && IsBest(records, k, q, j)
    ensures i == j && p == q
  {
    assert k in records[i].parsed && k in records[j].parsed;
  }

  lemma CombinedAssociates(t: Picks, u: Picks, v: Picks)
    ensures Combined(Combined(t, u), v) == Combined(t, Combined(u, v))
  {
  }

  lemma {:induction false} BestOfBoth(a: seq<Record>, b: seq<Record>)
    ensures Best(a + b) == Combined(Best(a), Best(b))
  {
    if b == [] {
      assert a + b == a;
    } else {
      var r := b[|b| - 1];
      assert (a + b)[..|a + b| - 1] == a + b[..|b| - 1];
      BestOfBoth(a, b[..|b| - 1]);
      CombinedAssociates(Best(a), Best(b[..|b| - 1]), Readings(r, r.parsed.Keys));
    }
  }

  // ---------------------------------------------------------------------
  // Whose readings a factory may use.
  // ---------------------------------------------------------------------

  function MaterialsOf(r: Record, materials: set<Field>): Record {
    r.(parsed := map k | k in r.parsed && k in materials :: r.parsed[k])
  }

  /** The records attributed to `owner`, with their material fields only; None is no attribution. */
  function Attributed(records: seq<Record>, owner: Option<FactoryId>, materials: set<Field>): seq<Record> {
    if records == [] then []
    else
      var r := records[|records| - 1];
      Attributed(records[..|records| - 1], owner, materials)
      + if r.factory == owner then [MaterialsOf(r, materials)] else []
  }

  function OwnedAt(records: seq<Record>, owner: Option<FactoryId>): set<nat> {
    set i: nat | i < |records| && records[i].factory == owner
  }

  lemma OwnedAtNext(records: seq<Record>, r: Record, owner: Option<FactoryId>)
    ensures forall i: nat :: i in OwnedAt(records + [r], owner)
                             <==> i in OwnedAt(records, owner) || (r.factory == owner && i == |records|)
  {
  }

  /** All records, reduced to their material fields. */
  function Reduced(records: seq<Record>, materials: set<Field>): (reduced: seq<Record>)
    ensures |reduced| == |records| && forall i | 0 <= i < |records| :: reduced[i] == MaterialsOf(records[i], materials)
  {
    seq(|records|, i requires 0 <= i < |records| => MaterialsOf(records[i], materials))
  }

  lemma ReducedNext(records: seq<Record>, r: Record, materials: set<Field>)
    ensures Reduced(records + [r], materials) == Reduced(records, materials) + [MaterialsOf(r, materials)]
  {
  }

  /** Those records, one for one and in order, each reduced to its material fields. */
  lemma {:induction false} AttributedExactly(records: seq<Record>, owner: Option<FactoryId>, materials: set<Field>)
      returns (at: seq<nat>)
    ensures Lists(at, OwnedAt(records, owner))
    ensures Selects(Attributed(records, owner, materials), Reduced(records, materials), at)
  {
    if records == [] {
      at := [];
    } else {
      var front, r := records[..|records| - 1], records[|records| - 1];
      assert records == front + [r];
      at := AttributedExactly(front, owner, materials);
      OwnedAtNext(front, r, owner);
      ListsNext(at, OwnedAt(front, owner), |front|, r.factory == owner, OwnedAt(records, owner));
      SelectsNext(Attributed(front, owner, materials), Reduced(front, materials), at, MaterialsOf(r, materials),
                r.factory == owner);
      ReducedNext(front, r, materials);
      at := if r.factory == owner then at + [|front|] else at;
    }
  }

  /** A reduced record keeps what it says of its material fields, and their confidences, and says nothing else. */
  lemma MaterialsOfExactly(r: Record, materials: set<Field>, k: Field)
    ensures k in MaterialsOf(r, materials).parsed <==> k in r.parsed && k in materials
    ensures k in MaterialsOf(r, materials).parsed ==>
              MaterialsOf(r, materials).parsed[k] == r.parsed[k]
              && Confidence(MaterialsOf(r, materials), k) == Confidence(r, k)
  {
  }

  /** A factory's own records, then the unattributed ones if it is the supplier's only factory. */
  function Sources(records: seq<Record>, f: FactoryId, factories: seq<FactoryId>, materials: set<Field>): seq<Record> {
    Attributed(records, Some(f), materials) + if factories == [f] then Attributed(records, None, materials) else []
  }

  lemma {:induction false} AttributedConcat(a: seq<Record>, b: seq<Record>, owner: Option<FactoryId>,
                                            materials: set<Field>)
    ensures Attributed(a + b, owner, materials) == Attributed(a, owner, materials) + Attributed(b, owner, materials)
  {
    if b == [] {
      assert a + b == a;
    } else {
      assert (a + b)[..|a + b| - 1] == a + b[..|b| - 1];
      AttributedConcat(a, b[..|b| - 1], owner, materials);
    }
  }

  /** A record of another factory never changes what f gets, and an unattributed one does only when f is the
      supplier's single factory. */
  lemma OthersDoNotMatter(before: seq<Record>, r: Record, after: seq<Record>, f: FactoryId, factories: seq<FactoryId>,
                          materials: set<Field>)
    requires r.factory != Some(f) && (r.factory.None? ==> factories != [f])
    ensures Best(Sources(before + [r] + after, f, factories, materials))
            == Best(Sources(before + after, f, factories, materials))
  {
    forall owner: Option<FactoryId> | owner != r.factory
      ensures Attributed(before + [r] + after, owner, materials) == Attributed(before + after, owner, materials)
    {
      AttributedConcat(before + [r], after, owner, materials);
      AttributedConcat(before, [r], owner, materials);
      AttributedConcat(before, after, owner, materials);
      assert [r][..0] == [];
      assert Attributed([r], owner, materials) == [];
    }
  }

  /** Record i has a material reading for factory f. */
  predicate FeedsAt(records: seq<Record>, i: nat, f: FactoryId, materials: set<Field>) {
    i < |records| && records[i].factory == Some(f) && Readings(records[i], materials) != map[]
  }

  /** The factories with material readings of their own, in the order of their first one. */
  function FirstSeen(records: seq<Record>, materials: set<Field>): seq<FactoryId> {
    if records == [] then []
    else
      var before, r := FirstSeen(records[..|records| - 1], materials), records[|records| - 1];
      before + if r.factory.Some? && Readings(r, materials) != map[] && r.factory.value !in before
               then [r.factory.value] else []
  }

  /** The supplier's only factory comes last when all it has is unattributed readings. */
  function WithOnly(own: seq<FactoryId>, factories: seq<FactoryId>, unattributed: Picks): seq<FactoryId> {
    own + if |factories| == 1 && factories[0] !in own && unattributed != map[] then [factories[0]] else []
  }

  function DraftOrder(records: seq<Record>, factories: seq<FactoryId>, materials: set<Field>): seq<FactoryId> {
    WithOnly(FirstSeen(records, materials), factories, Best(Attributed(records, None, materials)))
  }

  ghost predicate SeenBefore(records: seq<Record>, f: FactoryId, g: FactoryId, materials: set<Field>) {
    exists i: nat :: FeedsAt(records, i, f, materials) && forall j: nat | j <= i :: !FeedsAt(records, j, g, materials)
  }

  lemma FeedsInFront(records: seq<Record>, i: nat, f: FactoryId, materials: set<Field>)
    requires i < |records| - 1
    ensures FeedsAt(records[..|records| - 1], i, f, materials) <==> FeedsAt(records, i, f, materials)
  {
  }

  /** Exactly the factories with such readings, each once. */
  lemma {:induction false} FirstSeenExactly(records: seq<Record>, materials: set<Field>)
    ensures forall f :: f in FirstSeen(records, materials) <==> exists i: nat :: FeedsAt(records, i, f, materials)
    ensures forall a, b | 0 <= a < b < |FirstSeen(records, materials)| ::
              FirstSeen(records, materials)[a] != FirstSeen(records, materials)[b]
  {
    if records == [] {
      assert FirstSeen(records, materials) == [];
    } else {
      var n, front := |records| - 1, records[..|records| - 1];
      FirstSeenExactly(front, materials);
      var before, now := FirstSeen(front, materials), FirstSeen(records, materials);
      forall f ensures f in now <==> exists i: nat :: FeedsAt(records, i, f, materials) {
        if f in before {
          var i: nat :| FeedsAt(front, i, f, materials);
          FeedsInFront(records, i, f, materials);
        } else {
          forall i: nat | i < n ensures !FeedsAt(records, i, f, materials) {
            FeedsInFront(records, i, f, materials);
          }
          assert f in now <==> FeedsAt(records, n, f, materials);
        }
      }
      assert forall a | 0 <= a < |before| :: before[a] in before;
    }
  }

  /** And in the order of their first one. */
  lemma {:induction false} FirstSeenInOrder(records: seq<Record>, materials: set<Field>, a: nat, b: nat)
    requires a < b < |FirstSeen(records, materials)|
    ensures SeenBefore(records, FirstSeen(records, materials)[a], FirstSeen(records, materials)[b], materials)
  {
    var n, front := |records| - 1, records[..|records| - 1];
    var before, now := FirstSeen(front, materials), FirstSeen(records, materials);
    var f, g := now[a], now[b];
    FirstSeenExactly(front, materials);
    assert f == before[a] && f in before;
    var i: nat;
    if b < |before| {
      FirstSeenInOrder(front, materials, a, b);
      i :| FeedsAt(front, i, f, materials) && forall j: nat | j <= i :: !FeedsAt(front, j, g, materials);
    } else {
      i :| FeedsAt(front, i, f, materials);
    }
    FeedsInFront(records, i, f, materials);
    forall j: nat | j <= i ensures !FeedsAt(records, j, g, materials) {
      FeedsInFront(records, j, g, materials);
    }
  }

  // ---------------------------------------------------------------------
  // Merging.
  // ---------------------------------------------------------------------

  /** A bucket that does not exist yet is empty. */
  function Bucket(byFactory: map<FactoryId, Picks>, unattributed: Picks, owner: Option<FactoryId>): Picks {
    match owner
    case None => unattributed
    case Some(f) => if f in byFactory then byFactory[f] else map[]
  }

  ghost predicate BucketsHold(byFactory: map<FactoryId, Picks>, unattributed: Picks, records: seq<Record>,
                              materials: set<Field>)
  {
    forall owner :: Bucket(byFactory, unattributed, owner) == Best(Attributed(records, owner, materials))
  }

  /** One reading offered to a table. */
  function Merged(t: Picks, k: Field, p: Pick): Picks {
    if k !in t || p.confidence > t[k].confidence then t[k := p] else t
  }

  function Lookup(t: Picks, k: Field): Option<Pick> { if k in t then Some(t[k]) else None }

  function Stronger(a: Option<Pick>, b: Option<Pick>): Option<Pick> {
    if a.None? || (b.Some? && b.value.confidence > a.value.confidence) then b else a
  }

  /** t is t0 after the readings of u for the fields in done were offered to it. */
  ghost predicate Offered(t0: Picks, t: Picks, u: Picks, done: set<Field>) {
    forall k :: Lookup(t, k) == if k in done then Stronger(Lookup(t0, k), Lookup(u, k)) else Lookup(t0, k)
  }

  lemma OfferStep(t0: Picks, t: Picks, u: Picks, done: set<Field>, k: Field)
    requires Offered(t0, t, u, done) && k !in done
    ensures Offered(t0, if k in u then Merged(t, k, u[k]) else t, u, done + {k})
  {
  }

  lemma OfferedAll(t0: Picks, t: Picks, u: Picks, done: set<Field>)
    requires Offered(t0, t, u, done) && u.Keys <= done
    ensures t == Combined(t0, u)
  {
    forall k ensures Lookup(t, k) == Lookup(Combined(t0, u), k) {
    }
    forall k ensures k in t <==> k in Combined(t0, u) {
      assert Lookup(t, k) == Lookup(Combined(t0, u), k);
    }
    forall k | k in t ensures t[k] == Combined(t0, u)[k] {
      assert Lookup(t, k) == Lookup(Combined(t0, u), k);
    }
  }

  function Unconfirmed(records: seq<Record>): nat {
    if records == [] then 0
    else Unconfirmed(records[..|records| - 1]) + if records[|records| - 1].confirmed then 0 else 1
  }

  /** It counts the records that nobody confirmed. */
  lemma {:induction false} UnconfirmedExactly(records: seq<Record>)
    ensures Unconfirmed(records) == |set i: nat | i < |records| && !records[i].confirmed|
  {
    if records == [] {
    } else {
      var front, n := records[..|records| - 1], |records| - 1;
      UnconfirmedExactly(front);
      var before, now := set i: nat | i < n && !front[i].confirmed, set i: nat | i < |records| && !records[i].confirmed;
      forall i: nat ensures i in now <==> i in before || (!records[n].confirmed && i == n) {
        assert i < n ==> front[i] == records[i];
      }
      assert now == if records[n].confirmed then before else before + {n};
    }
  }

  lemma UnconfirmedStep(records: seq<Record>, r: Record)
    ensures Unconfirmed(records + [r]) == Unconfirmed(records) + if r.confirmed then 0 else 1
  {
    assert (records + [r])[..|records|] == records;
  }

  method OfferToBucket(byFactory0: map<FactoryId, Picks>, unattributed0: Picks, owner: Option<FactoryId>,
                       k: Field, p: Pick)
    returns (byFactory: map<FactoryId, Picks>, unattributed: Picks)
    requires forall f | f in byFactory0 :: byFactory0[f] != map[]
    ensures Bucket(byFactory, unattributed, owner) == Merged(Bucket(byFactory0, unattributed0, owner), k, p)
    ensures forall other | other != owner ::
              Bucket(byFactory, unattributed, other) == Bucket(byFactory0, unattributed0, other)
    ensures forall f | f in byFactory :: byFactory[f] != map[]
  {
    byFactory, unattributed := byFactory0, unattributed0;
    if owner.Some? {
      var t := if owner.value in byFactory then byFactory[owner.value] else map[];
      byFactory := byFactory[owner.value := Merged(t, k, p)];
      assert k in byFactory[owner.value];
    } else {
      unattributed := Merged(unattributed, k, p);
    }
  }

  /** Every reading of one record goes to the supplier's table, a material one also to the record's bucket. */
  method MergeRecord(r: Record, materials: set<Field>, merged0: Picks, byFactory0: map<FactoryId, Picks>,
                     unattributed0: Picks)
    returns (merged: Picks, byFactory: map<FactoryId, Picks>, unattributed: Picks)
    requires forall f | f in byFactory0 :: byFactory0[f] != map[]
    ensures merged == Combined(merged0, Readings(r, r.parsed.Keys))
    ensures Bucket(byFactory, unattributed, r.factory)
            == Combined(Bucket(byFactory0, unattributed0, r.factory), Readings(r, materials))
    ensures forall owner | owner != r.factory ::
              Bucket(byFactory, unattributed, owner) == Bucket(byFactory0, unattributed0, owner)
    ensures forall f | f in byFactory :: byFactory[f] != map[]
    ensures byFactory.Keys == byFactory0.Keys
                              + if r.factory.Some? && Readings(r, materials) != map[] then {r.factory.value} else {}
  {
    merged, byFactory, unattributed := merged0, byFactory0, unattributed0;
    ghost var all, some := Readings(r, r.parsed.Keys), Readings(r, materials);
    ghost var bucket0 := Bucket(byFactory, unattributed, r.factory);
    ghost var done: set<Field> := {};
    var rest := r.parsed.Keys;
    while rest != {}
      invariant done !! rest && done + rest == r.parsed.Keys
      invariant Offered(merged0, merged, all, done)
      invariant Offered(bucket0, Bucket(byFactory, unattributed, r.factory), some, done)
      invariant forall owner | owner != r.factory ::
                  Bucket(byFactory, unattributed, owner) == Bucket(byFactory0, unattributed0, owner)
      invariant forall f | f in byFactory :: byFactory[f] != map[]
      decreases rest
    {
      var k :| k in rest;
      var p := Pick(r.parsed[k], Confidence(r, k));
      OfferStep(merged0, merged, all, done, k);
      OfferStep(bucket0, Bucket(byFactory, unattributed, r.factory), some, done, k);
      merged := Merged(merged, k, p);
      if k in materials {
        byFactory, unattributed := OfferToBucket(byFactory, unattributed, r.factory, k, p);
      }
      done, rest := done + {k}, rest - {k};
    }
    OfferedAll(merged0, merged, all, done);
    OfferedAll(bucket0, Bucket(byFactory, unattributed, r.factory), some, done);
    KeysAfterRecord(byFactory0, unattributed0, byFactory, unattributed, r, materials);
  }

  method MergeRecords(records: seq<Record>, materials: set<Field>)
    returns (merged: Picks, byFactory: map<FactoryId, Picks>, order: seq<FactoryId>, unattributed: Picks,
             unconfirmed: nat)
    ensures merged == Best(records)
    ensures BucketsHold(byFactory, unattributed, records, materials)
    ensures forall f | f in byFactory :: byFactory[f] != map[]
    ensures IsOrder(order, byFactory.Keys, records, materials)
    ensures unconfirmed == Unconfirmed(records)
  {
    merged, byFactory, order, unattributed, unconfirmed := map[], map[], [], map[], 0;
    for i := 0 to |records|
      invariant merged == Best(records[..i])
      invariant BucketsHold(byFactory, unattributed, records[..i], materials)
      invariant forall f | f in byFactory :: byFactory[f] != map[]
      invariant IsOrder(order, byFactory.Keys, records[..i], materials)
      invariant unconfirmed == Unconfirmed(records[..i])
    {
      assert records[..i + 1] == records[..i] + [records[i]];
      BestStep(records[..i], records[i]);
      UnconfirmedStep(records[..i], records[i]);
      merged, byFactory, order, unattributed :=
        MergeNext(records[..i], records[i], materials, merged, byFactory, order, unattributed);
      if !records[i].confirmed {
        unconfirmed := unconfirmed + 1;
      }
    }
    assert records[..|records|] == records;
  }

  method MergeNext(ghost records: seq<Record>, r: Record, materials: set<Field>, merged0: Picks,
                   byFactory0: map<FactoryId, Picks>, order0: seq<FactoryId>, unattributed0: Picks)
    returns (merged: Picks, byFactory: map<FactoryId, Picks>, order: seq<FactoryId>, unattributed: Picks)
    requires BucketsHold(byFactory0, unattributed0, records, materials)
    requires forall f | f in byFactory0 :: byFactory0[f] != map[]
    requires IsOrder(order0, byFactory0.Keys, records, materials)
    ensures merged == Combined(merged0, Readings(r, r.parsed.Keys))
    ensures BucketsHold(byFactory, unattributed, records + [r], materials)
    ensures forall f | f in byFactory :: byFactory[f] != map[]
    ensures IsOrder(order, byFactory.Keys, records + [r], materials)
  {
    merged, byFactory, unattributed := MergeRecord(r, materials, merged0, byFactory0, unattributed0);
    order := WithNewKey(records, r, materials, order0, byFactory0.Keys, byFactory.Keys);
    BucketsStep(byFactory0, unattributed0, byFactory, unattributed, records, r, materials);
  }

  /** A dictionary keeps its keys in the order in which they came. */
  ghost predicate IsOrder(order: seq<FactoryId>, keys: set<FactoryId>, records: seq<Record>, materials: set<Field>) {
    order == FirstSeen(records, materials) && keys == set f | f in order
  }

  method WithNewKey(ghost records: seq<Record>, r: Record, ghost materials: set<Field>, order0: seq<FactoryId>,
                    keys0: set<FactoryId>, keys: set<FactoryId>) returns (order: seq<FactoryId>)
    requires IsOrder(order0, keys0, records, materials)
    requires keys == keys0 + if r.factory.Some? && Readings(r, materials) != map[] then {r.factory.value} else {}
    ensures IsOrder(order, keys, records + [r], materials)
  {
    assert (records + [r])[..|records|] == records;
    order := order0;
    if keys != keys0 {
      order := order + [r.factory.value];
    }
  }

  lemma KeysAfterRecord(byFactory0: map<FactoryId, Picks>, unattributed0: Picks, byFactory: map<FactoryId, Picks>,
                        unattributed: Picks, r: Record, materials: set<Field>)
    requires forall f | f in byFactory0 :: byFactory0[f] != map[]
    requires forall f | f in byFactory :: byFactory[f] != map[]
    requires Bucket(byFactory, unattributed, r.factory)
             == Combined(Bucket(byFactory0, unattributed0, r.factory), Readings(r, materials))
    requires forall owner | owner != r.factory ::
               Bucket(byFactory, unattributed, owner) == Bucket(byFactory0, unattributed0, owner)
    ensures byFactory.Keys == byFactory0.Keys
                              + if r.factory.Some? && Readings(r, materials) != map[] then {r.factory.value} else {}
  {
    forall f: FactoryId ensures f in byFactory <==>
                        f in byFactory0 || (r.factory == Some(f) && Readings(r, materials) != map[])
    {
      var before, now := Bucket(byFactory0, unattributed0, Some(f)), Bucket(byFactory, unattributed, Some(f));
      assert (f in byFactory <==> now != map[]) && (f in byFactory0 <==> before != map[]);
      if r.factory == Some(f) {
        assert now.Keys == before.Keys + Readings(r, materials).Keys;
      }
    }
  }

  lemma BucketsStep(byFactory0: map<FactoryId, Picks>, unattributed0: Picks, byFactory: map<FactoryId, Picks>,
                    unattributed: Picks, records: seq<Record>, r: Record, materials: set<Field>)
    requires BucketsHold(byFactory0, unattributed0, records, materials)
    requires Bucket(byFactory, unattributed, r.factory)
             == Combined(Bucket(byFactory0, unattributed0, r.factory), Readings(r, materials))
    requires forall owner | owner != r.factory ::
               Bucket(byFactory, unattributed, owner) == Bucket(byFactory0, unattributed0, owner)
    ensures BucketsHold(byFactory, unattributed, records + [r], materials)
  {
    forall owner ensures Bucket(byFactory, unattributed, owner) == Best(Attributed(records + [r], owner, materials)) {
      AttributedStep(records, r, owner, materials);
    }
  }

  lemma AttributedStep(records: seq<Record>, r: Record, owner: Option<FactoryId>, materials: set<Field>)
    ensures Best(Attributed(records + [r], owner, materials))
            == if owner == r.factory then Combined(Best(Attributed(records, owner, materials)), Readings(r, materials))
               else Best(Attributed(records, owner, materials))
  {
    var before := Attributed(records, owner, materials);
    assert (records + [r])[..|records|] == records;
    if owner == r.factory {
      BestStep(before, MaterialsOf(r, materials));
      MaterialReadings(r, materials);
    } else {
      assert before + [] == before;
    }
  }

  lemma BestStep(records: seq<Record>, r: Record)
    ensures Best(records + [r]) == Combined(Best(records), Readings(r, r.parsed.Keys))
  {
    assert (records + [r])[..|records|] == records;
  }

  lemma MaterialReadings(r: Record, materials: set<Field>)
    ensures Readings(MaterialsOf(r, materials), MaterialsOf(r, materials).parsed.Keys) == Readings(r, materials)
  {
  }

  /** Unattributed readings count for a supplier's only factory, after its own. */
  method AttributeTheRest(byFactory: map<FactoryId, Picks>, unattributed: Picks, factories: seq<FactoryId>)
    returns (result: map<FactoryId, Picks>)
    requires forall f | f in byFactory :: byFactory[f] != map[]
    ensures forall f: FactoryId :: Bucket(result, map[], Some(f))
                        == if factories == [f] then Combined(Bucket(byFactory, map[], Some(f)), unattributed)
                           else Bucket(byFactory, map[], Some(f))
    ensures forall f | f in result :: result[f] != map[]
    ensures result.Keys
            == byFactory.Keys + if unattributed != map[] && |factories| == 1 then {factories[0]} else {}
  {
    result := byFactory;
    if unattributed != map[] && |factories| == 1 {
      var only := factories[0];
      assert factories == [only];
      ghost var bucket0 := Bucket(byFactory, map[], Some(only));
      var rest := unattributed.Keys;
      while rest != {}
        invariant rest <= unattributed.Keys
        invariant result.Keys == byFactory.Keys + if rest == unattributed.Keys then {} else {only}
        invariant Offered(bucket0, Bucket(result, map[], Some(only)), unattributed, unattributed.Keys - rest)
        invariant forall f: FactoryId | f != only :: Bucket(result, map[], Some(f)) == Bucket(byFactory, map[], Some(f))
        invariant forall f | f in result :: result[f] != map[]
      {
        var k :| k in rest;
        OfferStep(bucket0, Bucket(result, map[], Some(only)), unattributed, unattributed.Keys - rest, k);
        assert unattributed.Keys - (rest - {k}) == unattributed.Keys - rest + {k};
        result := result[only := Merged(Bucket(result, map[], Some(only)), k, unattributed[k])];
        assert k in result[only];
        rest := rest - {k};
      }
      OfferedAll(bucket0, Bucket(result, map[], Some(only)), unattributed, unattributed.Keys - rest);
    } else {
      assert |factories| == 1 ==> forall t: Picks :: Combined(t, map[]) == t;
    }
  }

  // ---------------------------------------------------------------------
  // From picks to a form.
  // ---------------------------------------------------------------------

  /** A field the form knows; each field is listed once. */
  datatype Entry = Entry(field: Field, section: string, kind: string, caption: string)

  predicate Distinct(catalog: seq<Entry>) {
    forall i, j | 0 <= i < j < |catalog| :: catalog[i].field != catalog[j].field
  }

  const MATERIALS := "materials"
  const CONFIDENT := 0.85

  type Form = map<string, map<Field, Reading>>

  datatype Flag = Flag(section: string, field: Field, caption: string, value: Reading, confidence: real)

  predicate Fills(e: Entry, picks: Picks) {
    e.field in picks && Coerced(picks[e.field].value, e.kind).Some?
  }

  function Filled(e: Entry, picks: Picks): Reading
    requires Fills(e, picks)
  {
    Coerced(picks[e.field].value, e.kind).value
  }

  function Column(form: Form, section: string): map<Field, Reading> {
    if section in form then form[section] else map[]
  }

  /** The column holds exactly the section's readable picks, converted. */
  ghost predicate ColumnOf(catalog: seq<Entry>, picks: Picks, section: string,
                           column: map<Field, Reading>)
  {
    && (forall e | e in catalog && e.section == section && Fills(e, picks) ::
          e.field in column && column[e.field] == Filled(e, picks))
    && (forall k | k in column ::
          exists e :: e in catalog && e.section == section && e.field == k && Fills(e, picks))
  }

  ghost predicate FormOf(catalog: seq<Entry>, picks: Picks, form: Form) {
    && (forall section :: ColumnOf(catalog, picks, section, Column(form, section)))
    && (forall section | section in form :: form[section] != map[])
  }

  predicate Doubtful(e: Entry, picks: Picks) {
    Fills(e, picks) && picks[e.field].confidence < CONFIDENT
  }

  function FlagFor(e: Entry, picks: Picks): Flag
    requires Fills(e, picks)
  {
    Flag(e.section, e.field, e.caption, Filled(e, picks), picks[e.field].confidence)
  }

  /** An entry is filled exactly when its field was read as something its kind allows, with that reading; below 0.85 it
      is doubtful. */
  lemma EntryExactly(e: Entry, picks: Picks)
    ensures Fills(e, picks) <==>
            && e.field in picks && !picks[e.field].value.Null?
            && var v := picks[e.field].value;
               if e.kind == "str" then !AllSpace(v.text) else v.Number? || HasDigit(v.text)
    ensures Fills(e, picks) ==> IsReading(picks[e.field].value, e.kind, Some(Filled(e, picks)))
    ensures Doubtful(e, picks) <==> Fills(e, picks) && picks[e.field].confidence < 0.85
  {
    if e.field in picks {
      UnreadableIff(picks[e.field].value, e.kind);
      CoercedIsReading(picks[e.field].value, e.kind);
    }
  }

  lemma MaterialFieldsExactly(catalog: seq<Entry>, k: Field)
    ensures k in MaterialFields(catalog) <==> exists e :: e in catalog && e.section == "materials" && e.field == k
  {
  }

  /** x is e's flag: its reading is doubtful, and x says which field of which section reads what, how surely. */
  ghost predicate Flagged(e: Entry, picks: Picks, x: Flag) {
    && Doubtful(e, picks) && IsReading(picks[e.field].value, e.kind, Some(x.value))
    && x.section == e.section && x.field == e.field && x.caption == e.caption
    && x.confidence == picks[e.field].confidence
  }

  lemma FlaggedIsFlagFor(e: Entry, picks: Picks, x: Flag)
    ensures Flagged(e, picks, x) <==> Doubtful(e, picks) && x == FlagFor(e, picks)
  {
    if Doubtful(e, picks) {
      var v := picks[e.field].value;
      CoercedIsReading(v, e.kind);
      if IsReading(v, e.kind, Some(x.value)) {
        ReadingIsUnique(v, e.kind, Some(x.value), Coerced(v, e.kind));
      }
    }
  }

  predicate Before(catalog: seq<Entry>, a: Field, b: Field) {
    exists i, j :: 0 <= i < j < |catalog| && catalog[i].field == a && catalog[j].field == b
  }

  /** Exactly the filled fields below the threshold, in catalog order. */
  ghost predicate FlagsOf(catalog: seq<Entry>, picks: Picks, low: seq<Flag>) {
    && (forall x :: x in low <==> exists e :: e in catalog && Flagged(e, picks, x))
    && (forall a, b | 0 <= a < b < |low| :: Before(catalog, low[a].field, low[b].field))
  }

  function WithEntry(form: Form, e: Entry, picks: Picks): Form {
    if Fills(e, picks) then form[e.section := Column(form, e.section)[e.field := Filled(e, picks)]]
    else form
  }

  lemma FormStep(catalog: seq<Entry>, e: Entry, picks: Picks, form: Form)
    requires FormOf(catalog, picks, form) && Distinct(catalog + [e])
    ensures FormOf(catalog + [e], picks, WithEntry(form, e, picks))
  {
    forall d | d in catalog ensures d.field != e.field {
      var i :| 0 <= i < |catalog| && catalog[i] == d;
      assert (catalog + [e])[i] == d && (catalog + [e])[|catalog|] == e;
    }
    var form' := WithEntry(form, e, picks);
    forall section ensures ColumnOf(catalog + [e], picks, section, Column(form', section)) {
      assert ColumnOf(catalog, picks, section, Column(form, section));
    }
    assert Fills(e, picks) ==> e.field in form'[e.section];
  }

  function WithFlag(low: seq<Flag>, e: Entry, picks: Picks): seq<Flag> {
    if Doubtful(e, picks) then low + [FlagFor(e, picks)] else low
  }

  lemma FlagsStep(catalog: seq<Entry>, e: Entry, picks: Picks, low: seq<Flag>)
    requires FlagsOf(catalog, picks, low)
    ensures FlagsOf(catalog + [e], picks, WithFlag(low, e, picks))
  {
    var low', catalog' := WithFlag(low, e, picks), catalog + [e];
    forall a, b | 0 <= a < b < |low'| ensures Before(catalog', low'[a].field, low'[b].field) {
      if b < |low| {
        assert Before(catalog, low[a].field, low[b].field);
        var i, j :| 0 <= i < j < |catalog| && catalog[i].field == low[a].field && catalog[j].field == low[b].field;
        assert catalog'[i].field == low'[a].field && catalog'[j].field == low'[b].field;
      } else {
        assert low[a] in low;
        var d :| d in catalog && Flagged(d, picks, low[a]);
        var i :| 0 <= i < |catalog| && catalog[i] == d;
        assert catalog'[i].field == low'[a].field && catalog'[|catalog|].field == low'[b].field;
      }
    }
    forall y ensures y in low' <==> exists d :: d in catalog' && Flagged(d, picks, y) {
      FlaggedIsFlagFor(e, picks, y);
      assert y in low <==> exists d :: d in catalog && Flagged(d, picks, y);
      if y in low {
        var d :| d in catalog && Flagged(d, picks, y);
        assert d in catalog';
      } else if y in low' {
        assert e in catalog';
      }
    }
  }

  method ToMasterFormPrefill(catalog: seq<Entry>, picks: Picks) returns (form: Form, low: seq<Flag>)
    requires Distinct(catalog)
    ensures FormOf(catalog, picks, form) && FlagsOf(catalog, picks, low)
  {
    form, low := map[], [];
    for i := 0 to |catalog|
      invariant FormOf(catalog[..i], picks, form)
      invariant FlagsOf(catalog[..i], picks, low)
    {
      var e := catalog[i];
      FormStep(catalog[..i], e, picks, form);
      FlagsStep(catalog[..i], e, picks, low);
      assert catalog[..i + 1] == catalog[..i] + [e];
      form, low := FillEntry(e, picks, form, low);
    }
    assert catalog[..|catalog|] == catalog;
  }

  method FillEntry(e: Entry, picks: Picks, form0: Form, low0: seq<Flag>)
    returns (form: Form, low: seq<Flag>)
    ensures form == WithEntry(form0, e, picks) && low == WithFlag(low0, e, picks)
  {
    form, low := form0, low0;
    if e.field !in picks {
      return;
    }
    var coerced := Coerce(picks[e.field].value, e.kind);
    CoercedIsReading(picks[e.field].value, e.kind);
    ReadingIsUnique(picks[e.field].value, e.kind, coerced, Coerced(picks[e.field].value, e.kind));
    if coerced.None? {
      return;
    }
    form := form[e.section := Column(form, e.section)[e.field := coerced.value]];
    var confidence := picks[e.field].confidence;
    if confidence < CONFIDENT {
      low := low + [Flag(e.section, e.field, e.caption, coerced.value, confidence)];
    }
  }

  /** The catalog's material fields. */
  function MaterialFields(catalog: seq<Entry>): set<Field> {
    set e | e in catalog && e.section == MATERIALS :: e.field
  }

  datatype FactoryDraft = FactoryDraft(factory: FactoryId, materials: map<Field, Reading>, low: seq<Flag>)
  datatype Draft =
    Draft(documents: nat, unconfirmed: nat, form: Form, low: seq<Flag>, factories: seq<FactoryDraft>)

  predicate HasMaterials(catalog: seq<Entry>, picks: Picks) {
    exists e :: e in catalog && e.section == MATERIALS && Fills(e, picks)
  }

  function Filter(order: seq<FactoryId>, keep: set<FactoryId>): seq<FactoryId> {
    if order == [] then []
    else Filter(order[..|order| - 1], keep) + if order[|order| - 1] in keep then [order[|order| - 1]] else []
  }

  /** What a factory is offered: the readable materials among its best readings, with the doubtful ones. */
  ghost predicate DraftOf(catalog: seq<Entry>, picks: Picks, d: FactoryDraft) {
    ColumnOf(catalog, picks, MATERIALS, d.materials) && FlagsOf(catalog, picks, d.low)
  }

  /** One draft, in this order, for each factory whose best readings include a readable material. */
  ghost predicate DraftsOf(catalog: seq<Entry>, best: map<FactoryId, Picks>, order: seq<FactoryId>,
                           drafts: seq<FactoryDraft>)
    requires forall f | f in order :: f in best
  {
    var offered := Filter(order, set f | f in best && HasMaterials(catalog, best[f]));
    && |drafts| == |offered|
    && forall i | 0 <= i < |drafts| ::
         drafts[i].factory == offered[i] && offered[i] in best && DraftOf(catalog, best[offered[i]], drafts[i])
  }

  /** The best readings of each factory that has sources. */
  function BestPerFactory(records: seq<Record>, factories: seq<FactoryId>, materials: set<Field>)
    : map<FactoryId, Picks>
  {
    map f | f in DraftOrder(records, factories, materials) :: Best(Sources(records, f, factories, materials))
  }

  function KeptAt(order: seq<FactoryId>, keep: set<FactoryId>): set<nat> {
    set i: nat | i < |order| && order[i] in keep
  }

  lemma KeptAtNext(order: seq<FactoryId>, f: FactoryId, keep: set<FactoryId>)
    ensures forall i: nat :: i in KeptAt(order + [f], keep) <==> i in KeptAt(order, keep) || (f in keep && i == |order|)
  {
  }

  lemma {:induction false} FilterExactly(order: seq<FactoryId>, keep: set<FactoryId>) returns (at: seq<nat>)
    ensures Lists(at, KeptAt(order, keep)) && Selects(Filter(order, keep), order, at)
  {
    if order == [] {
      at := [];
    } else {
      var front, f := order[..|order| - 1], order[|order| - 1];
      assert order == front + [f];
      at := FilterExactly(front, keep);
      KeptAtNext(front, f, keep);
      ListsNext(at, KeptAt(front, keep), |front|, f in keep, KeptAt(order, keep));
      SelectsNext(Filter(front, keep), front, at, f, f in keep);
      at := if f in keep then at + [|front|] else at;
    }
  }

  predicate Drafted(drafts: seq<FactoryDraft>, f: FactoryId) {
    exists i :: 0 <= i < |drafts| && drafts[i].factory == f
  }

  /** The readings that factory f may use include a readable material. */
  ghost predicate Offers(catalog: seq<Entry>, records: seq<Record>, factories: seq<FactoryId>, f: FactoryId) {
    HasMaterials(catalog, Best(Sources(records, f, factories, MaterialFields(catalog))))
  }

  /** f comes before g: it has a material reading of its own before any of g's, or g has only unattributed ones. */
  ghost predicate DraftedBefore(catalog: seq<Entry>, records: seq<Record>, factories: seq<FactoryId>, f: FactoryId,
                                g: FactoryId)
  {
    || SeenBefore(records, f, g, MaterialFields(catalog))
    || (factories == [g] && forall i: nat :: !FeedsAt(records, i, g, MaterialFields(catalog)))
  }

  /** The drafts as the supplier finds them: one for each factory whose usable readings include a readable material,
      holding those of its best readings, in the order in which the factories came up. */
  ghost predicate DraftsExactly(catalog: seq<Entry>, records: seq<Record>, factories: seq<FactoryId>,
                                drafts: seq<FactoryDraft>)
  {
    && (forall f :: Drafted(drafts, f) <==> Offers(catalog, records, factories, f))
    && (forall i, j | 0 <= i < j < |drafts| ::
          && drafts[i].factory != drafts[j].factory
          && DraftedBefore(catalog, records, factories, drafts[i].factory, drafts[j].factory))
    && (forall i | 0 <= i < |drafts| ::
          DraftOf(catalog, Best(Sources(records, drafts[i].factory, factories, MaterialFields(catalog))), drafts[i]))
  }

  /** A factory that has anything to offer comes up. */
  lemma OfferedComesUp(catalog: seq<Entry>, records: seq<Record>, factories: seq<FactoryId>, f: FactoryId)
    requires Offers(catalog, records, factories, f)
    ensures f in DraftOrder(records, factories, MaterialFields(catalog))
  {
    var materials := MaterialFields(catalog);
    var own, loose := Attributed(records, Some(f), materials), Attributed(records, None, materials);
    var e :| e in catalog && e.section == MATERIALS && Fills(e, Best(Sources(records, f, factories, materials)));
    NothingIsLost(Sources(records, f, factories, materials), e.field);
    var i :| 0 <= i < |Sources(records, f, factories, materials)|
             && e.field in Sources(records, f, factories, materials)[i].parsed;
    if i < |own| {
      var at := AttributedExactly(records, Some(f), materials);
      assert at[i] in at;
      MaterialsOfExactly(records[at[i]], materials, e.field);
      assert e.field in Readings(records[at[i]], materials);
      assert FeedsAt(records, at[i], f, materials);
      FirstSeenExactly(records, materials);
    } else {
      assert factories == [f] && loose[i - |own|] == Sources(records, f, factories, materials)[i];
      NothingIsLost(loose, e.field);
      assert e.field in Best(loose);
    }
  }

  lemma OrderedDrafts(catalog: seq<Entry>, records: seq<Record>, factories: seq<FactoryId>, a: nat, b: nat)
    requires a < b < |DraftOrder(records, factories, MaterialFields(catalog))|
    ensures var order := DraftOrder(records, factories, MaterialFields(catalog));
            order[a] != order[b] && DraftedBefore(catalog, records, factories, order[a], order[b])
  {
    var materials := MaterialFields(catalog);
    var own, order := FirstSeen(records, materials), DraftOrder(records, factories, materials);
    FirstSeenExactly(records, materials);
    if b < |own| {
      FirstSeenInOrder(records, materials, a, b);
    } else {
      assert order[a] == own[a] && own[a] in own;
      assert order[b] !in own && factories == [order[b]];
    }
  }

  lemma DraftsOfExactly(catalog: seq<Entry>, records: seq<Record>, factories: seq<FactoryId>, drafts: seq<FactoryDraft>)
    requires DraftsOf(catalog, BestPerFactory(records, factories, MaterialFields(catalog)),
                      DraftOrder(records, factories, MaterialFields(catalog)), drafts)
    ensures DraftsExactly(catalog, records, factories, drafts)
  {
    var materials := MaterialFields(catalog);
    var order, best := DraftOrder(records, factories, materials), BestPerFactory(records, factories, materials);
    var keep := set f | f in best && HasMaterials(catalog, best[f]);
    var at := FilterExactly(order, keep);
    forall f ensures Drafted(drafts, f) <==> Offers(catalog, records, factories, f) {
      if i :| 0 <= i < |drafts| && drafts[i].factory == f {
        assert at[i] in at && order[at[i]] == f;
      }
      if Offers(catalog, records, factories, f) {
        OfferedComesUp(catalog, records, factories, f);
        var n: nat :| n < |order| && order[n] == f;
        assert f in keep;
        assert n in at;
        var i :| 0 <= i < |at| && at[i] == n;
        assert drafts[i].factory == f;
      }
    }
    forall i, j | 0 <= i < j < |drafts|
      ensures drafts[i].factory != drafts[j].factory
      ensures DraftedBefore(catalog, records, factories, drafts[i].factory, drafts[j].factory)
    {
      OrderedDrafts(catalog, records, factories, at[i], at[j]);
    }
    forall i | 0 <= i < |drafts|
      ensures DraftOf(catalog, Best(Sources(records, drafts[i].factory, factories, materials)), drafts[i])
    {
      assert drafts[i].factory == order[at[i]];
    }
  }

  method GetMasterFormPrefill(known: bool, records: seq<Record>, factories: seq<FactoryId>, catalog: seq<Entry>)
    returns (result: Option<Draft>)
    requires Distinct(catalog)
    ensures result.Some? <==> known
    ensures known ==> result.value.documents == |records| && result.value.unconfirmed == Unconfirmed(records)
    ensures known ==> FormOf(catalog, Best(records), result.value.form)
                      && FlagsOf(catalog, Best(records), result.value.low)
    ensures known ==> DraftsOf(catalog, BestPerFactory(records, factories, MaterialFields(catalog)),
                               DraftOrder(records, factories, MaterialFields(catalog)), result.value.factories)
    ensures known ==> DraftsExactly(catalog, records, factories, result.value.factories)
  {
    if !known {
      return None;
    }
    var merged, buckets, order, unconfirmed := BestBuckets(records, factories, MaterialFields(catalog));
    var form, low := ToMasterFormPrefill(catalog, merged);
    var drafts := DraftFactories(catalog, buckets, order);
    DraftsOfExactly(catalog, records, factories, drafts);
    result := Some(Draft(|records|, unconfirmed, form, low, drafts));
  }

  /** Both merging loops, and the order in which the factories came up. */
  method BestBuckets(records: seq<Record>, factories: seq<FactoryId>, materials: set<Field>)
    returns (merged: Picks, buckets: map<FactoryId, Picks>, order: seq<FactoryId>, unconfirmed: nat)
    ensures merged == Best(records) && unconfirmed == Unconfirmed(records)
    ensures order == DraftOrder(records, factories, materials)
    ensures buckets == BestPerFactory(records, factories, materials)
  {
    var own, keys0;
    ghost var unattributed;
    merged, buckets, own, keys0, unattributed, unconfirmed := MergeAll(records, factories, materials);
    order := AddOnly(own, keys0, factories, unattributed, buckets.Keys);
    SameMap(buckets, BestPerFactory(records, factories, materials));
  }

  method MergeAll(records: seq<Record>, factories: seq<FactoryId>, materials: set<Field>)
    returns (merged: Picks, buckets: map<FactoryId, Picks>, order: seq<FactoryId>, keys0: set<FactoryId>,
             ghost unattributed: Picks, unconfirmed: nat)
    ensures merged == Best(records) && unconfirmed == Unconfirmed(records)
    ensures IsOrder(order, keys0, records, materials)
    ensures unattributed == Best(Attributed(records, None, materials))
    ensures buckets.Keys == keys0 + if unattributed != map[] && |factories| == 1 then {factories[0]} else {}
    ensures forall f | f in buckets :: buckets[f] == Best(Sources(records, f, factories, materials))
  {
    var byFactory, loose;
    merged, byFactory, order, loose, unconfirmed := MergeRecords(records, materials);
    buckets := AttributeTheRest(byFactory, loose, factories);
    assert loose == Bucket(byFactory, loose, None);
    BucketsAreBest(records, factories, materials, byFactory, loose, buckets);
    keys0, unattributed := byFactory.Keys, loose;
  }

  method AddOnly(own: seq<FactoryId>, keys0: set<FactoryId>, factories: seq<FactoryId>, ghost unattributed: Picks,
                 keys: set<FactoryId>) returns (order: seq<FactoryId>)
    requires keys0 == set f | f in own
    requires keys == keys0 + if unattributed != map[] && |factories| == 1 then {factories[0]} else {}
    ensures order == WithOnly(own, factories, unattributed) && keys == set f | f in order
  {
    order := own;
    if keys != keys0 {
      order := order + [factories[0]];
    }
  }

  lemma SameMap(a: map<FactoryId, Picks>, b: map<FactoryId, Picks>)
    requires a.Keys == b.Keys && forall f | f in a :: a[f] == b[f]
    ensures a == b
  {
  }

  lemma BucketsAreBest(records: seq<Record>, factories: seq<FactoryId>, materials: set<Field>,
                       byFactory: map<FactoryId, Picks>, unattributed: Picks, buckets: map<FactoryId, Picks>)
    requires BucketsHold(byFactory, unattributed, records, materials)
    requires forall f: FactoryId :: Bucket(buckets, map[], Some(f))
                        == if factories == [f] then Combined(Bucket(byFactory, map[], Some(f)), unattributed)
                           else Bucket(byFactory, map[], Some(f))
    ensures forall f | f in buckets :: buckets[f] == Best(Sources(records, f, factories, materials))
  {
    forall f | f in buckets ensures buckets[f] == Best(Sources(records, f, factories, materials)) {
      SourcesMerged(records, f, factories, materials, byFactory, unattributed);
      assert Bucket(buckets, map[], Some(f)) == buckets[f];
    }
  }

  lemma SourcesMerged(records: seq<Record>, f: FactoryId, factories: seq<FactoryId>, materials: set<Field>,
                      byFactory: map<FactoryId, Picks>, unattributed: Picks)
    requires BucketsHold(byFactory, unattributed, records, materials)
    ensures Best(Sources(records, f, factories, materials))
            == if factories == [f] then Combined(Bucket(byFactory, map[], Some(f)), unattributed)
               else Bucket(byFactory, map[], Some(f))
  {
    var own, loose := Attributed(records, Some(f), materials), Attributed(records, None, materials);
    assert Bucket(byFactory, unattributed, Some(f)) == Best(own);
    assert Bucket(byFactory, unattributed, None) == Best(loose);
    BestOfBoth(own, loose);
    assert own + [] == own;
  }

  method DraftFactories(catalog: seq<Entry>, buckets: map<FactoryId, Picks>, order: seq<FactoryId>)
    returns (drafts: seq<FactoryDraft>)
    requires Distinct(catalog) && forall f | f in order :: f in buckets
    ensures DraftsOf(catalog, buckets, order, drafts)
  {
    drafts := [];
    ghost var keep := set f | f in buckets && HasMaterials(catalog, buckets[f]);
    for i := 0 to |order|
      invariant DraftsOf(catalog, buckets, order[..i], drafts)
    {
      var f := order[i];
      assert order[..i + 1][..i] == order[..i];
      var form, low := ToMasterFormPrefill(catalog, buckets[f]);
      var materials := Column(form, MATERIALS);
      assert ColumnOf(catalog, buckets[f], MATERIALS, materials);
      if materials != map[] {
        var k :| k in materials;
        assert HasMaterials(catalog, buckets[f]);
        drafts := drafts + [FactoryDraft(f, materials, low)];
      } else {
        assert f !in keep;
      }
    }
    assert order[..|order|] == order;
  }
}
