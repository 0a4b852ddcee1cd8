/** Submitting the master form: factories are upserted and pruned under foreign keys, the other sections are
    replaced, and the whole submission is one transaction that any database error undoes. */
module MasterForm {
  import opened Options
  import opened Selections

  type SupplierId = nat
  type FactoryId = nat

  // ---------------------------------------------------------------------
  // The stored rows.
  // ---------------------------------------------------------------------

  /** The supplier columns the form writes; `other` stands for the columns it does not. */
  datatype Company = Company(name: string, providerType: string, country: Option<string>)
  datatype Supplier = Supplier(company: Company, other: string)

  datatype FactoryValues = FactoryValues(role: string, country: Option<string>, details: string)
  datatype Factory = Factory(owner: SupplierId, active: bool, values: FactoryValues)

  datatype Contact = Contact(owner: SupplierId, factory: Option<FactoryId>, data: string)
  datatype Declaration = Declaration(factory: FactoryId, data: string)

  /** `pinned` are the factories named by supply ratios or audit records, whose keys forbid deletion. */
  datatype Store = Store(
    suppliers: map<SupplierId, Supplier>,
    factories: map<FactoryId, Factory>,
    pinned: set<FactoryId>,
    contacts: seq<Contact>,
    details: map<SupplierId, string>,
    declarations: seq<Declaration>,
    selfRisk: map<SupplierId, string>)

  /** The foreign keys into the factory table. */
  ghost predicate KeysHold(s: Store) {
    && s.pinned <= s.factories.Keys
    && (forall c | c in s.contacts && c.factory.Some? :: c.factory.value in s.factories)
    && (forall d | d in s.declarations :: d.factory in s.factories)
  }

  // ---------------------------------------------------------------------
  // The form.
  // ---------------------------------------------------------------------

  datatype FactoryForm = FactoryForm(id: Option<FactoryId>, values: FactoryValues)
  datatype ContactForm = ContactForm(factoryIndex: Option<int>, data: string)
  datatype DeclarationForm = DeclarationForm(factoryIndex: Option<int>, data: string)
  datatype Manufacturing = Manufacturing(details: string, declarations: seq<DeclarationForm>)

  datatype Form = Form(
    company: Company,
    factories: seq<FactoryForm>,
    contacts: seq<ContactForm>,
    manufacturing: Option<Manufacturing>,
    selfRisk: Option<string>)

  datatype Section = CompanySection | FactoriesSection | ContactsSection | ManufacturingSection | SelfAssessment

  datatype Outcome = NotFound | OnBehalfDenied | RolledBack | Saved(sections: seq<Section>)

  /** A form index into the submitted factories; none and out of range both mean no factory. */
  function FactoryIdAt(idx: Option<int>, ids: seq<FactoryId>): Option<FactoryId> {
    if idx.Some? && 0 <= idx.value < |ids| then Some(ids[idx.value]) else None
  }

  // ---------------------------------------------------------------------
  // Deleting a factory reaches other tables.
  // ---------------------------------------------------------------------

  /** ON DELETE SET NULL: contacts of a factory outside keys lose their link. */
  function UnlinkContacts(cs: seq<Contact>, keys: set<FactoryId>): seq<Contact> {
    if cs == [] then []
    else
      var c := cs[|cs| - 1];
      UnlinkContacts(cs[..|cs| - 1], keys)
      + [if c.factory.Some? && c.factory.value !in keys then c.(factory := None) else c]
  }

  /** ON DELETE CASCADE: declarations of a factory outside keys go with it. */
  function DropDeclarations(ds: seq<Declaration>, keys: set<FactoryId>): seq<Declaration> {
    if ds == [] then []
    else DropDeclarations(ds[..|ds| - 1], keys) + if ds[|ds| - 1].factory in keys then [ds[|ds| - 1]] else []
  }

  lemma UnlinkTwice(cs: seq<Contact>, keys: set<FactoryId>, fewer: set<FactoryId>)
    requires fewer <= keys
    ensures UnlinkContacts(UnlinkContacts(cs, keys), fewer) == UnlinkContacts(cs, fewer)
  {
    if cs == [] {
    } else {
      var c, rest := cs[|cs| - 1], UnlinkContacts(cs[..|cs| - 1], keys);
      UnlinkTwice(cs[..|cs| - 1], keys, fewer);
      var c' := if c.factory.Some? && c.factory.value !in keys then c.(factory := None) else c;
      assert UnlinkContacts(cs, keys) == rest + [c'];
      assert (rest + [c'])[..|rest|] == rest;
    }
  }

  lemma DropTwice(ds: seq<Declaration>, keys: set<FactoryId>, fewer: set<FactoryId>)
    requires fewer <= keys
    ensures DropDeclarations(DropDeclarations(ds, keys), fewer) == DropDeclarations(ds, fewer)
  {
    if ds == [] {
    } else {
      var d, rest := ds[|ds| - 1], DropDeclarations(ds[..|ds| - 1], keys);
      DropTwice(ds[..|ds| - 1], keys, fewer);
      if d.factory in keys {
        assert DropDeclarations(ds, keys) == rest + [d];
        assert (rest + [d])[..|rest|] == rest;
      } else {
        assert DropDeclarations(ds, keys) == rest;
      }
    }
  }

  lemma UnlinkedMembers(cs: seq<Contact>, keys: set<FactoryId>)
    ensures |UnlinkContacts(cs, keys)| == |cs|
    ensures forall i | 0 <= i < |cs| :: UnlinkContacts(cs, keys)[i] ==
              if cs[i].factory.Some? && cs[i].factory.value !in keys then cs[i].(factory := None) else cs[i]
  {
    if cs == [] {
    } else {
      UnlinkedMembers(cs[..|cs| - 1], keys);
    }
  }

  lemma DroppedMembers(ds: seq<Declaration>, keys: set<FactoryId>, d: Declaration)
    ensures d in DropDeclarations(ds, keys) <==> d in ds && d.factory in keys
  {
    if ds == [] {
    } else {
      DroppedMembers(ds[..|ds| - 1], keys, d);
      assert ds == ds[..|ds| - 1] + [ds[|ds| - 1]];
    }
  }

  lemma NothingDropped(cs: seq<Contact>, ds: seq<Declaration>, keys: set<FactoryId>)
    ensures UnlinkContacts(cs, keys) == cs <==> forall c | c in cs && c.factory.Some? :: c.factory.value in keys
    ensures DropDeclarations(ds, keys) == ds <==> forall d | d in ds :: d.factory in keys
  {
    UnlinkedMembers(cs, keys);
    if UnlinkContacts(cs, keys) == cs {
      forall c | c in cs && c.factory.Some? ensures c.factory.value in keys {
        var i :| 0 <= i < |cs| && cs[i] == c;
      }
    }
    if forall d | d in ds :: d.factory in keys {
      KeepsAll(ds, keys);
    }
    if DropDeclarations(ds, keys) == ds {
      forall d | d in ds ensures d.factory in keys {
        DroppedMembers(ds, keys, d);
      }
    }
  }

  /** Each declaration goes or stays with its factory, however often it is stored. */
  lemma DroppedCount(ds: seq<Declaration>, keys: set<FactoryId>, d: Declaration)
    ensures multiset(DropDeclarations(ds, keys))[d] == if d.factory in keys then multiset(ds)[d] else 0
  {
    if ds == [] {
    } else {
      var front, last := ds[..|ds| - 1], ds[|ds| - 1];
      DroppedCount(front, keys, d);
      assert ds == front + [last];
      assert multiset(ds)[d] == multiset(front)[d] + if last == d then 1 else 0;
    }
  }

  lemma {:induction false} KeepsAll(ds: seq<Declaration>, keys: set<FactoryId>)
    requires forall i | 0 <= i < |ds| :: ds[i].factory in keys
    ensures DropDeclarations(ds, keys) == ds
  {
    if ds == [] {
    } else {
      var front, last := ds[..|ds| - 1], ds[|ds| - 1];
      KeepsAll(front, keys);
      assert ds == front + [last];
    }
  }

  // ---------------------------------------------------------------------
  // What a factory sync must achieve.
  // ---------------------------------------------------------------------

  function Owned(s: Store, supplier: SupplierId): set<FactoryId> {
    set f | f in s.factories && s.factories[f].owner == supplier
  }

  predicate LastAt(ids: seq<FactoryId>, i: nat) {
    i < |ids| && ids[i] !in ids[i + 1..]
  }

  /** One id per form entry, in order: an owned id is kept, anything else gets an id no factory had. */
  ghost predicate IdsAssigned(f0: map<FactoryId, Factory>, owned: set<FactoryId>, forms: seq<FactoryForm>,
                              ids: seq<FactoryId>)
  {
    && |ids| == |forms|
    && (forall i | 0 <= i < |ids| ::
          if forms[i].id.Some? && forms[i].id.value in owned then ids[i] == forms[i].id.value else ids[i] !in f0)
    && (forall i, j | 0 <= i < j < |ids| && ids[i] == ids[j] :: ids[i] in f0)
  }

  /** The row of a listed factory: the last entry's values, and of an old row everything else, its
      active flag included. */
  function Written(f0: map<FactoryId, Factory>, supplier: SupplierId, id: FactoryId, values: FactoryValues): Factory {
    if id in f0 then f0[id].(values := values) else Factory(supplier, true, values)
  }

  ghost predicate Upserted(f0: map<FactoryId, Factory>, f1: map<FactoryId, Factory>, supplier: SupplierId,
                           owned: set<FactoryId>, forms: seq<FactoryForm>, ids: seq<FactoryId>)
  {
    && IdsAssigned(f0, owned, forms, ids)
    && (forall x :: x in f1 <==> x in f0 || x in ids)
    && (forall x | x in f0 && x !in ids :: f1[x] == f0[x])
    && (forall i: nat | LastAt(ids, i) :: f1[ids[i]] == Written(f0, supplier, ids[i], forms[i].values))
  }

  lemma LastOccurrence(ids: seq<FactoryId>, x: FactoryId) returns (i: nat)
    requires x in ids
    ensures LastAt(ids, i) && ids[i] == x
  {
    i := |ids| - 1;
    while ids[i] != x
      invariant i < |ids| && x in ids[..i + 1] && x !in ids[i + 1..]
      decreases i
    {
      assert ids[..i + 1] == ids[..i] + [ids[i]];
      assert ids[i..] == [ids[i]] + ids[i + 1..];
      i := i - 1;
    }
  }

  /** Writing a row over an earlier version of itself is writing it over the original. */
  lemma RowStays(f0: map<FactoryId, Factory>, f1: map<FactoryId, Factory>, supplier: SupplierId,
                 owned: set<FactoryId>, forms: seq<FactoryForm>, ids: seq<FactoryId>, id: FactoryId,
                 values: FactoryValues)
    requires Upserted(f0, f1, supplier, owned, forms, ids) && (id in f0 || id !in f1)
    ensures Written(f1, supplier, id, values) == Written(f0, supplier, id, values)
  {
    if id in ids {
      var i := LastOccurrence(ids, id);
    }
  }

  lemma UpsertStep(f0: map<FactoryId, Factory>, f1: map<FactoryId, Factory>, supplier: SupplierId,
                   owned: set<FactoryId>, forms: seq<FactoryForm>, ids: seq<FactoryId>, f: FactoryForm, id: FactoryId)
    requires Upserted(f0, f1, supplier, owned, forms, ids) && owned <= f0.Keys
    requires if f.id.Some? && f.id.value in owned then id == f.id.value else id !in f1
    ensures Upserted(f0, f1[id := Written(f0, supplier, id, f.values)], supplier, owned, forms + [f], ids + [id])
  {
    var ids' := ids + [id];
    forall i: nat | LastAt(ids', i)
      ensures f1[id := Written(f0, supplier, id, f.values)][ids'[i]]
              == Written(f0, supplier, ids'[i], (forms + [f])[i].values)
    {
      if i < |ids| {
        assert ids'[i + 1..] == ids[i + 1..] + [id];
        assert LastAt(ids, i);
      }
    }
  }

  lemma UpsertNext(f0: map<FactoryId, Factory>, f1: map<FactoryId, Factory>, supplier: SupplierId,
                   owned: set<FactoryId>, forms: seq<FactoryForm>, i: nat, ids: seq<FactoryId>, id: FactoryId)
    requires i < |forms| && Upserted(f0, f1, supplier, owned, forms[..i], ids) && owned <= f0.Keys
    requires if forms[i].id.Some? && forms[i].id.value in owned then id == forms[i].id.value else id !in f1
    ensures Upserted(f0, f1[id := Written(f1, supplier, id, forms[i].values)], supplier, owned, forms[..i + 1],
                     ids + [id])
  {
    assert forms[..i + 1] == forms[..i] + [forms[i]];
    RowStays(f0, f1, supplier, owned, forms[..i], ids, id, forms[i].values);
    UpsertStep(f0, f1, supplier, owned, forms[..i], ids, forms[i], id);
  }

  lemma OwnedStay(f0: map<FactoryId, Factory>, f1: map<FactoryId, Factory>, supplier: SupplierId,
                  owned: set<FactoryId>, forms: seq<FactoryForm>, ids: seq<FactoryId>)
    requires Upserted(f0, f1, supplier, owned, forms, ids) && owned <= f0.Keys
    ensures owned <= f1.Keys
  {
  }

  /** Every stale factory is gone, or inactive when its key is pinned; its dependants follow. */
  ghost predicate Pruned(s: Store, s': Store, stale: set<FactoryId>) {
    && (forall x :: x in s'.factories <==> x in s.factories && (x in stale ==> x in s.pinned))
    && (forall x | x in s'.factories ::
          s'.factories[x] == if x in stale then s.factories[x].(active := false) else s.factories[x])
    && s' == s.(factories := s'.factories,
                contacts := UnlinkContacts(s.contacts, s'.factories.Keys),
                declarations := DropDeclarations(s.declarations, s'.factories.Keys))
  }

  /** One stale factory's share of that. */
  function Removed(s: Store, x: FactoryId): Store
    requires x in s.factories
  {
    if x in s.pinned then s.(factories := s.factories[x := s.factories[x].(active := false)])
    else
      var left := s.factories - {x};
      s.(factories := left, contacts := UnlinkContacts(s.contacts, left.Keys),
         declarations := DropDeclarations(s.declarations, left.Keys))
  }

  predicate Blank(country: Option<string>) { country.None? || country.value == "" }

  /** The country of the first mining entry that states one. */
  function MiningCountry(forms: seq<FactoryForm>): Option<string> {
    if forms == [] then None
    else
      var before := MiningCountry(forms[..|forms| - 1]);
      var v := forms[|forms| - 1].values;
      if before.Some? then before else if v.role == "mining" && !Blank(v.country) then v.country else None
  }

  /** The supplier table after a sync: at most one empty country is filled. */
  function Backfilled(sup: map<SupplierId, Supplier>, supplier: SupplierId, forms: seq<FactoryForm>)
    : map<SupplierId, Supplier>
  {
    var c := MiningCountry(forms);
    if c.Some? && supplier in sup && Blank(sup[supplier].company.country)
    then sup[supplier := sup[supplier].(company := sup[supplier].company.(country := c))]
    else sup
  }

  /** What a factory sync makes of the factory table, row by row. */
  ghost predicate FactoriesSynced(s: Store, s': Store, supplier: SupplierId, forms: seq<FactoryForm>,
                                  ids: seq<FactoryId>)
  {
    && IdsAssigned(s.factories, Owned(s, supplier), forms, ids)
    // listed factories
    && (forall i: nat | LastAt(ids, i) ::
          ids[i] in s'.factories && s'.factories[ids[i]] == Written(s.factories, supplier, ids[i], forms[i].values))
    // this supplier's other factories
    && (forall x | x in Owned(s, supplier) && x !in ids ::
          if x in s.pinned then x in s'.factories && s'.factories[x] == s.factories[x].(active := false)
          else x !in s'.factories)
    // everyone else's
    && (forall x | x in s.factories && x !in Owned(s, supplier) ::
          x in s'.factories && s'.factories[x] == s.factories[x])
    && (forall x | x in s'.factories :: x in s.factories || x in ids)
  }

  /** The whole contract of a factory sync. */
  ghost predicate Synced(s: Store, s': Store, supplier: SupplierId, forms: seq<FactoryForm>, ids: seq<FactoryId>) {
    && FactoriesSynced(s, s', supplier, forms, ids)
    && s' == s.(factories := s'.factories,
                suppliers := Backfilled(s.suppliers, supplier, forms),
                contacts := UnlinkContacts(s.contacts, s'.factories.Keys),
                declarations := DropDeclarations(s.declarations, s'.factories.Keys))
  }

  /** Upsert, then prune what was not listed: that is the whole sync, the country aside. */
  lemma UpsertThenPrune(s: Store, f1: map<FactoryId, Factory>, s2: Store, supplier: SupplierId,
                        forms: seq<FactoryForm>, ids: seq<FactoryId>)
    requires KeysHold(s) && Upserted(s.factories, f1, supplier, Owned(s, supplier), forms, ids)
    requires Pruned(s.(factories := f1), s2, set x | x in Owned(s, supplier) && x !in ids)
    ensures Synced(s, s2.(suppliers := Backfilled(s.suppliers, supplier, forms)), supplier, forms, ids)
    ensures KeysHold(s2)
  {
    forall i | 0 <= i < |ids| ensures ids[i] in Owned(s, supplier) || ids[i] !in s.factories {
    }
    assert forall x | x in s.factories && x !in Owned(s, supplier) :: x !in ids;
    PrunedKeysHold(s.(factories := f1), s2, set x | x in Owned(s, supplier) && x !in ids);
  }

  lemma PrunedKeysHold(s: Store, s2: Store, stale: set<FactoryId>)
    requires s.pinned <= s.factories.Keys && Pruned(s, s2, stale)
    ensures KeysHold(s2)
  {
    UnlinkedMembers(s.contacts, s2.factories.Keys);
    forall d | d in s2.declarations ensures d.factory in s2.factories {
      DroppedMembers(s.declarations, s2.factories.Keys, d);
    }
    forall c | c in s2.contacts && c.factory.Some? ensures c.factory.value in s2.factories {
      var i :| 0 <= i < |s2.contacts| && s2.contacts[i] == c;
    }
  }

  lemma RemovedKeysHold(s: Store, x: FactoryId)
    requires KeysHold(s) && x in s.factories
    ensures KeysHold(Removed(s, x))
  {
    if x in s.pinned {
      assert Removed(s, x).factories.Keys == s.factories.Keys;
    } else {
      NothingDropped(s.contacts, s.declarations, s.factories.Keys);
      PrunedKeysHold(s, Removed(s, x), {x});
    }
  }

  /** Every factory a supply ratio or an audit record names survives the sync. */
  lemma PinnedFactoriesSurvive(s: Store, s': Store, supplier: SupplierId, forms: seq<FactoryForm>, ids: seq<FactoryId>,
                               x: FactoryId)
    requires KeysHold(s) && Synced(s, s', supplier, forms, ids) && x in s.pinned
    ensures x in s'.factories && s'.factories[x].owner == s.factories[x].owner
  {
    if x in Owned(s, supplier) && x in ids {
      var i := LastOccurrence(ids, x);
    }
  }

  /** Listing a factory again does not reactivate it. */
  lemma RelistingKeepsTheActiveFlag(s: Store, s': Store, supplier: SupplierId, forms: seq<FactoryForm>,
                                    ids: seq<FactoryId>, x: FactoryId)
    requires Synced(s, s', supplier, forms, ids) && x in s.factories && x in ids
    ensures x in s'.factories && s'.factories[x].active == s.factories[x].active
  {
    var i := LastOccurrence(ids, x);
  }

  // ---------------------------------------------------------------------
  // The other sections.
  // ---------------------------------------------------------------------

  function NewContacts(supplier: SupplierId, forms: seq<ContactForm>, ids: seq<FactoryId>): seq<Contact> {
    if forms == [] then []
    else
      var f := forms[|forms| - 1];
      NewContacts(supplier, forms[..|forms| - 1], ids) + [Contact(supplier, FactoryIdAt(f.factoryIndex, ids), f.data)]
  }

  lemma NewContactsStep(supplier: SupplierId, forms: seq<ContactForm>, ids: seq<FactoryId>, i: nat)
    requires i < |forms|
    ensures NewContacts(supplier, forms[..i + 1], ids)
            == NewContacts(supplier, forms[..i], ids)
               + [Contact(supplier, FactoryIdAt(forms[i].factoryIndex, ids), forms[i].data)]
  {
    assert forms[..i + 1][..i] == forms[..i];
  }

  function OthersContacts(cs: seq<Contact>, supplier: SupplierId): seq<Contact> {
    if cs == [] then []
    else
      var c := cs[|cs| - 1];
      OthersContacts(cs[..|cs| - 1], supplier) + if c.owner != supplier then [c] else []
  }

  function NewDeclarations(forms: seq<DeclarationForm>, ids: seq<FactoryId>): seq<Declaration> {
    if forms == [] then []
    else
      var f := forms[|forms| - 1];
      var at := FactoryIdAt(f.factoryIndex, ids);
      NewDeclarations(forms[..|forms| - 1], ids) + if at.Some? then [Declaration(at.value, f.data)] else []
  }

  function DeclarationsElsewhere(ds: seq<Declaration>, ids: seq<FactoryId>): seq<Declaration> {
    if ds == [] then []
    else
      var d := ds[|ds| - 1];
      DeclarationsElsewhere(ds[..|ds| - 1], ids) + if d.factory !in ids then [d] else []
  }

  function CompanyWritten(s: Store, supplier: SupplierId, company: Company): Store
    requires supplier in s.suppliers
  {
    s.(suppliers := s.suppliers[supplier := s.suppliers[supplier].(company := company)])
  }

  function OtherSectionsWritten(s: Store, supplier: SupplierId, form: Form, ids: seq<FactoryId>): Store {
    s.(contacts := OthersContacts(s.contacts, supplier) + NewContacts(supplier, form.contacts, ids),
       details := if form.manufacturing.Some? then s.details[supplier := form.manufacturing.value.details]
                  else s.details,
       declarations := if form.manufacturing.Some?
                       then DeclarationsElsewhere(s.declarations, ids)
                            + NewDeclarations(form.manufacturing.value.declarations, ids)
                       else s.declarations,
       selfRisk := if form.selfRisk.Some? then s.selfRisk[supplier := form.selfRisk.value] else s.selfRisk)
  }

  /** What a saved submission makes of the store. */
  ghost predicate Submitted(s: Store, s': Store, supplier: SupplierId, form: Form, onBehalf: bool,
                            ids: seq<FactoryId>)
  {
    if onBehalf then
      Synced(s, s', supplier, form.factories, ids)
    else
      supplier in s.suppliers
      && exists mid :: Synced(CompanyWritten(s, supplier, form.company), mid, supplier, form.factories, ids)
                       && s' == OtherSectionsWritten(mid, supplier, form, ids)
  }

  function SectionsSaved(form: Form, onBehalf: bool): seq<Section> {
    (if onBehalf then [] else [CompanySection])
    + (if form.factories != [] then [FactoriesSection] else [])
    + if onBehalf then [] else
      (if form.contacts != [] then [ContactsSection] else [])
      + (if form.manufacturing.Some? then [ManufacturingSection] else [])
      + (if form.selfRisk.Some? then [SelfAssessment] else [])
  }

  // ---------------------------------------------------------------------
  // The database session and the submission.
  // ---------------------------------------------------------------------

  class Session {
    var committed: Store
    var working: Store
    /** No factory was ever given an id from here on. */
    var nextId: FactoryId
    /** Statements that still succeed before the database raises; None when it never does. */
    var budget: Option<nat>

    ghost predicate Valid()
      reads this
    {
      && KeysHold(working) && KeysHold(committed)
      && (forall f | f in working.factories :: f < nextId) && (forall f | f in committed.factories :: f < nextId)
    }

    constructor (store: Store, nextId: FactoryId, budget: Option<nat>)
      requires KeysHold(store) && forall f | f in store.factories :: f < nextId
      ensures Valid() && committed == working == store && this.budget == budget
    {
      committed, working, this.nextId, this.budget := store, store, nextId, budget;
    }

    /** One statement reaches the database, or raises. */
    method Statement() returns (ok: bool)
      modifies this`budget
      ensures old(budget).None? ==> ok && budget.None?
    {
      if budget.None? {
        return true;
      }
      if budget.value == 0 {
        return false;
      }
      budget := Some(budget.value - 1);
      return true;
    }

    /** One form entry: update an owned factory in place, or insert under a fresh id. */
    method WriteFactory(supplier: SupplierId, existing: set<FactoryId>, f: FactoryForm)
        returns (ok: bool, id: FactoryId)
      requires Valid() && existing <= working.factories.Keys
      modifies this`working, this`nextId, this`budget
      ensures Valid()
      ensures ok ==> (if f.id.Some? && f.id.value in existing then id == f.id.value else id !in old(working.factories))
      ensures ok ==> working == old(working).(factories :=
                       old(working.factories)[id := Written(old(working.factories), supplier, id, f.values)])
      ensures old(budget).None? ==> ok && budget.None?
    {
      id := nextId;
      ok := Statement();
      if !ok {
        return;
      }
      if f.id.Some? && f.id.value in existing {
        id := f.id.value;
        working := working.(factories := working.factories[id := working.factories[id].(values := f.values)]);
      } else {
        nextId := nextId + 1;
        working := working.(factories := working.factories[id := Factory(supplier, true, f.values)]);
      }
    }

    method UpsertFactories(supplier: SupplierId, forms: seq<FactoryForm>) returns (ok: bool, ids: seq<FactoryId>)
      requires Valid()
      modifies this`working, this`nextId, this`budget
      ensures Valid()
      ensures ok ==> Upserted(old(working.factories), working.factories, supplier, Owned(old(working), supplier),
                              forms, ids)
                     && working == old(working).(factories := working.factories)
      ensures old(budget).None? ==> ok && budget.None?
    {
      var existing := Owned(working, supplier);
      ids := [];
      ghost var f0 := working.factories;
      for i := 0 to |forms|
        invariant Valid() && existing == Owned(old(working), supplier) && f0 == old(working.factories)
        invariant Upserted(f0, working.factories, supplier, existing, forms[..i], ids)
        invariant working == old(working).(factories := working.factories)
        invariant old(budget).None? ==> budget.None?
      {
        ghost var before := working.factories;
        OwnedStay(f0, before, supplier, existing, forms[..i], ids);
        var id;
        ok, id := WriteFactory(supplier, existing, forms[i]);
        if !ok {
          return;
        }
        UpsertNext(f0, before, supplier, existing, forms, i, ids, id);
        ids := ids + [id];
      }
      assert forms[..|forms|] == forms;
      ok := true;
    }

    /** A delete under a savepoint, or a soft delete when a key refuses it. */
    method RemoveFactory(x: FactoryId) returns (ok: bool)
      requires Valid() && x in working.factories
      modifies this`working, this`budget
      ensures Valid()
      ensures ok ==> working == Removed(old(working), x)
      ensures old(budget).None? ==> ok && budget.None?
    {
      ok := Statement();
      if !ok {
        return;
      }
      RemovedKeysHold(working, x);
      if x in working.pinned {
        working := working.(factories := working.factories[x := working.factories[x].(active := false)]);
      } else {
        var left := working.factories - {x};
        working := working.(factories := left,
                            contacts := UnlinkContacts(working.contacts, left.Keys),
                            declarations := DropDeclarations(working.declarations, left.Keys));
      }
    }

    /** The unlisted factories, in any order. */
    method PruneStale(stale: set<FactoryId>) returns (ok: bool)
      requires Valid() && stale <= working.factories.Keys
      modifies this`working, this`budget
      ensures Valid()
      ensures ok ==> Pruned(old(working), working, stale)
      ensures old(budget).None? ==> ok && budget.None?
    {
      var rest := stale;
      NothingDropped(working.contacts, working.declarations, working.factories.Keys);
      while rest != {}
        invariant rest <= stale && Valid()
        invariant Pruned(old(working), working, stale - rest)
        invariant old(budget).None? ==> budget.None?
        decreases rest
      {
        var x :| x in rest;
        ghost var before := working;
        ok := RemoveFactory(x);
        if !ok {
          return;
        }
        PruneStep(old(working), before, working, stale - rest, x);
        assert stale - (rest - {x}) == (stale - rest) + {x};
        rest := rest - {x};
        PrunedKeysHold(old(working), working, stale - rest);
      }
      assert stale - rest == stale;
      ok := true;
    }

    method FindMiningCountry(forms: seq<FactoryForm>) returns (country: Option<string>)
      ensures country == MiningCountry(forms)
    {
      country := None;
      for i := 0 to |forms|
        invariant country == MiningCountry(forms[..i])
      {
        assert forms[..i + 1][..i] == forms[..i];
        if country.None? && forms[i].values.role == "mining" && !Blank(forms[i].values.country) {
          country := forms[i].values.country;
        }
      }
      assert forms[..|forms|] == forms;
    }

    method WriteFactories(supplier: SupplierId, forms: seq<FactoryForm>) returns (ok: bool, ids: seq<FactoryId>)
      requires Valid()
      modifies this`working, this`nextId, this`budget
      ensures Valid()
      ensures ok ==> Synced(old(working), working, supplier, forms, ids)
      ensures old(budget).None? ==> ok && budget.None?
    {
      var existing := Owned(working, supplier);
      ok, ids := UpsertFactories(supplier, forms);
      if !ok {
        return;
      }
      ghost var f1 := working.factories;
      var stale := set x | x in existing && x !in ids;
      ok := PruneStale(stale);
      if !ok {
        return;
      }
      UpsertThenPrune(old(working), f1, working, supplier, forms, ids);
      var country := FindMiningCountry(forms);
      if country.Some? && supplier in working.suppliers && Blank(working.suppliers[supplier].company.country) {
        ok := Statement();
        if !ok {
          return;
        }
        var row := working.suppliers[supplier];
        row := row.(company := row.company.(country := country));
        working := working.(suppliers := working.suppliers[supplier := row]);
      }
    }

    method InsertContact(c: Contact) returns (ok: bool)
      requires Valid() && (c.factory.Some? ==> c.factory.value in working.factories)
      modifies this`working, this`budget
      ensures Valid()
      ensures ok ==> working == old(working).(contacts := old(working).contacts + [c])
      ensures old(budget).None? ==> ok && budget.None?
    {
      ok := Statement();
      if ok {
        ContactAdded(working, c);
        working := working.(contacts := working.contacts + [c]);
      }
    }

    method InsertDeclaration(d: Declaration) returns (ok: bool)
      requires Valid() && d.factory in working.factories
      modifies this`working, this`budget
      ensures Valid()
      ensures ok ==> working == old(working).(declarations := old(working).declarations + [d])
      ensures old(budget).None? ==> ok && budget.None?
    {
      ok := Statement();
      if ok {
        DeclarationAdded(working, d);
        working := working.(declarations := working.declarations + [d]);
      }
    }

    method AddContacts(supplier: SupplierId, forms: seq<ContactForm>, ids: seq<FactoryId>) returns (ok: bool)
      requires Valid() && forall x | x in ids :: x in working.factories
      modifies this`working, this`budget
      ensures Valid()
      ensures ok ==> working == old(working).(contacts := old(working).contacts + NewContacts(supplier, forms, ids))
      ensures old(budget).None? ==> ok && budget.None?
    {
      ok := true;
      for i := 0 to |forms|
        invariant Valid()
        invariant working == old(working).(contacts := old(working).contacts + NewContacts(supplier, forms[..i], ids))
        invariant old(budget).None? ==> ok && budget.None?
      {
        NewContactsStep(supplier, forms, ids, i);
        ok := InsertContact(Contact(supplier, FactoryIdAt(forms[i].factoryIndex, ids), forms[i].data));
        if !ok {
          return;
        }
      }
      assert forms[..|forms|] == forms;
    }

    method WriteContacts(supplier: SupplierId, forms: seq<ContactForm>, ids: seq<FactoryId>) returns (ok: bool)
      requires Valid() && forall x | x in ids :: x in working.factories
      modifies this`working, this`budget
      ensures Valid()
      ensures ok ==> working == old(working).(contacts :=
                       OthersContacts(old(working).contacts, supplier) + NewContacts(supplier, forms, ids))
      ensures old(budget).None? ==> ok && budget.None?
    {
      ok := Statement();
      if !ok {
        return;
      }
      OthersAreOld(working.contacts, supplier);
      working := working.(contacts := OthersContacts(working.contacts, supplier));
      ok := AddContacts(supplier, forms, ids);
    }

    /** The details row, and the listed factories' declarations cleared; with no factory there is nothing to clear. */
    method ReplaceDetails(supplier: SupplierId, ids: seq<FactoryId>, details: string) returns (ok: bool)
      requires Valid()
      modifies this`working, this`budget
      ensures Valid()
      ensures ok ==> working == old(working).(details := old(working).details[supplier := details],
                                              declarations := DeclarationsElsewhere(old(working).declarations, ids))
      ensures old(budget).None? ==> ok && budget.None?
    {
      ok := Statement();
      if !ok {
        return;
      }
      ElsewhereAreOld(working.declarations, ids);
      working := working.(details := working.details[supplier := details]);
      if ids != [] {
        working := working.(declarations := DeclarationsElsewhere(working.declarations, ids));
      } else {
        NothingElsewhere(working.declarations);
      }
    }

    method InsertDeclarations(forms: seq<DeclarationForm>, ids: seq<FactoryId>) returns (ok: bool)
      requires Valid() && forall x | x in ids :: x in working.factories
      modifies this`working, this`budget
      ensures Valid()
      ensures ok ==> working == old(working).(declarations := old(working).declarations + NewDeclarations(forms, ids))
      ensures old(budget).None? ==> ok && budget.None?
    {
      for i := 0 to |forms|
        invariant Valid()
        invariant working == old(working).(declarations := old(working).declarations + NewDeclarations(forms[..i], ids))
        invariant old(budget).None? ==> budget.None?
      {
        assert forms[..i + 1][..i] == forms[..i];
        var at := FactoryIdAt(forms[i].factoryIndex, ids);
        if at.Some? {
          ok := InsertDeclaration(Declaration(at.value, forms[i].data));
          if !ok {
            return;
          }
        }
      }
      assert forms[..|forms|] == forms;
      ok := true;
    }

    method WriteManufacturing(supplier: SupplierId, ids: seq<FactoryId>, data: Manufacturing) returns (ok: bool)
      requires Valid() && forall x | x in ids :: x in working.factories
      modifies this`working, this`budget
      ensures Valid()
      ensures ok ==> working == old(working).(
                       details := old(working).details[supplier := data.details],
                       declarations := DeclarationsElsewhere(old(working).declarations, ids)
                                       + NewDeclarations(data.declarations, ids))
      ensures old(budget).None? ==> ok && budget.None?
    {
      ok := ReplaceDetails(supplier, ids, data.details);
      if ok {
        ok := InsertDeclarations(data.declarations, ids);
      }
    }

    /** Everything after the factories, for a submission by the supplier itself. */
    method WriteOtherSections(supplier: SupplierId, form: Form, ids: seq<FactoryId>) returns (ok: bool)
      requires Valid() && forall x | x in ids :: x in working.factories
      modifies this`working, this`budget
      ensures Valid()
      ensures ok ==> working == OtherSectionsWritten(old(working), supplier, form, ids)
      ensures old(budget).None? ==> ok && budget.None?
    {
      ok := WriteContacts(supplier, form.contacts, ids);
      if ok && form.manufacturing.Some? {
        ok := WriteManufacturing(supplier, ids, form.manufacturing.value);
      }
      if ok && form.selfRisk.Some? {
        ok := Statement();
        if ok {
          working := working.(selfRisk := working.selfRisk[supplier := form.selfRisk.value]);
        }
      }
    }

    /** The writes of one submission, up to but not including the commit. */
    method WriteSections(supplier: SupplierId, form: Form, onBehalf: bool) returns (ok: bool, ghost ids: seq<FactoryId>)
      requires Valid() && supplier in working.suppliers
      modifies this`working, this`nextId, this`budget
      ensures Valid()
      ensures ok ==> Submitted(old(working), working, supplier, form, onBehalf, ids)
      ensures old(budget).None? ==> ok && budget.None?
    {
      if !onBehalf {
        ok := Statement();
        if !ok {
          ids := [];
          return;
        }
        working := CompanyWritten(working, supplier, form.company);
      }
      ghost var before := working;
      var fids;
      ok, fids := WriteFactories(supplier, form.factories);
      ids := fids;
      if ok && !onBehalf {
        ghost var mid := working;
        SyncedIdsExist(before, mid, supplier, form.factories, fids);
        ok := WriteOtherSections(supplier, form, fids);
      }
    }

    /** The entry point: two gates, the writes, and one commit or one rollback. */
    method SubmitMasterForm(supplier: SupplierId, form: Form, caller: Option<SupplierId>, connected: bool)
        returns (r: Outcome, ghost ids: seq<FactoryId>)
      requires Valid() && working == committed
      modifies this
      ensures Valid() && working == committed
      ensures !r.Saved? ==> committed == old(committed)
      ensures r == NotFound <==> supplier !in old(committed).suppliers
      ensures var onBehalf := caller.Some? && caller.value != supplier;
              && (r == OnBehalfDenied <==>
                    supplier in old(committed).suppliers && onBehalf
                    && (old(committed).suppliers[supplier].company.providerType != "miner" || !connected))
              && (r.Saved? ==> r.sections == SectionsSaved(form, onBehalf)
                               && Submitted(old(committed), committed, supplier, form, onBehalf, ids))
      ensures old(budget).None? ==> r != RolledBack
    {
      ids := [];
      if supplier !in committed.suppliers {
        return NotFound, ids;
      }
      var onBehalf := caller.Some? && caller.value != supplier;
      if onBehalf && (committed.suppliers[supplier].company.providerType != "miner" || !connected) {
        return OnBehalfDenied, ids;
      }
      var ok;
      ok, ids := WriteSections(supplier, form, onBehalf);
      if ok {
        ok := Statement();
      }
      if !ok {
        working := committed;
        return RolledBack, ids;
      }
      committed := working;
      r := Saved(SectionsSaved(form, onBehalf));
    }
  }

  lemma OthersAreOld(cs: seq<Contact>, supplier: SupplierId)
    ensures forall c :: c in OthersContacts(cs, supplier) <==> c in cs && c.owner != supplier
  {
    if cs == [] {
    } else {
      OthersAreOld(cs[..|cs| - 1], supplier);
      assert cs == cs[..|cs| - 1] + [cs[|cs| - 1]];
    }
  }

  lemma ElsewhereAreOld(ds: seq<Declaration>, ids: seq<FactoryId>)
    ensures forall d :: d in DeclarationsElsewhere(ds, ids) <==> d in ds && d.factory !in ids
  {
    if ds == [] {
    } else {
      ElsewhereAreOld(ds[..|ds| - 1], ids);
      assert ds == ds[..|ds| - 1] + [ds[|ds| - 1]];
    }
  }

  lemma {:induction false} NothingElsewhere(ds: seq<Declaration>)
    ensures DeclarationsElsewhere(ds, []) == ds
  {
    if ds == [] {
    } else {
      NothingElsewhere(ds[..|ds| - 1]);
      assert ds == ds[..|ds| - 1] + [ds[|ds| - 1]];
    }
  }

  lemma SyncedIdsExist(s: Store, s': Store, supplier: SupplierId, forms: seq<FactoryForm>, ids: seq<FactoryId>)
    requires Synced(s, s', supplier, forms, ids)
    ensures forall x | x in ids :: x in s'.factories
  {
    forall x | x in ids ensures x in s'.factories {
      var i := LastOccurrence(ids, x);
    }
  }

  // ---------------------------------------------------------------------
  // What a saved submission leaves alone, and where its links point.
  // ---------------------------------------------------------------------

  /** Some entry of the form names factory x. */
  predicate Listed(forms: seq<FactoryForm>, x: FactoryId) {
    exists i :: 0 <= i < |forms| && forms[i].id == Some(x)
  }

  lemma ListedIffAssigned(s: Store, supplier: SupplierId, forms: seq<FactoryForm>, ids: seq<FactoryId>, x: FactoryId)
    requires IdsAssigned(s.factories, Owned(s, supplier), forms, ids) && x in Owned(s, supplier)
    ensures x in ids <==> Listed(forms, x)
  {
    if x in ids {
      var i :| 0 <= i < |ids| && ids[i] == x;
      assert forms[i].id == Some(x);
    }
    if i :| 0 <= i < |forms| && forms[i].id == Some(x) {
      assert ids[i] == x;
    }
  }

  /** Factory x is safe from pruning: the form names it, a supply ratio or an audit record names it, or it belongs to
      somebody else. */
  predicate Safe(s: Store, supplier: SupplierId, forms: seq<FactoryForm>, x: FactoryId)
    requires x in s.factories
  {
    Listed(forms, x) || x in s.pinned || s.factories[x].owner != supplier
  }

  /** A stored factory survives a sync exactly when it is safe. */
  lemma FactoryStaysIff(s: Store, s': Store, supplier: SupplierId, forms: seq<FactoryForm>, ids: seq<FactoryId>,
                        x: FactoryId)
    requires KeysHold(s) && Synced(s, s', supplier, forms, ids) && x in s.factories
    ensures x in s'.factories <==> Safe(s, supplier, forms, x)
  {
    SyncedIdsExist(s, s', supplier, forms, ids);
    if x in s.pinned {
      PinnedFactoriesSurvive(s, s', supplier, forms, ids, x);
    }
    if s.factories[x].owner == supplier {
      ListedIffAssigned(s, supplier, forms, ids, x);
    }
  }

  /** On behalf of a miner: its self-assessment and manufacturing details stay, its row changes at most by filling an
      empty country, and nobody else's row changes. Pruning reaches further than the factories: the contacts of a
      factory that is not safe lose their link, and its carbon declarations are deleted. All others stay. */
  lemma OnBehalfChangesExactly(s: Store, s': Store, supplier: SupplierId, form: Form, ids: seq<FactoryId>)
    requires KeysHold(s) && Submitted(s, s', supplier, form, true, ids)
    ensures s'.selfRisk == s.selfRisk && s'.details == s.details && s'.pinned == s.pinned
    ensures CountryFilledAtMost(s.suppliers, s'.suppliers, supplier, form.factories)
    ensures |s'.contacts| == |s.contacts|
    ensures forall i | 0 <= i < |s.contacts| ::
              s'.contacts[i] == Relinked(s, supplier, form.factories, s.contacts[i])
    ensures forall d :: multiset(s'.declarations)[d]
              == if d in s.declarations && Safe(s, supplier, form.factories, d.factory) then multiset(s.declarations)[d]
                 else 0
  {
    OnBehalfRow(s.suppliers, supplier, form.factories);
    UnlinkedMembers(s.contacts, s'.factories.Keys);
    forall i | 0 <= i < |s.contacts|
      ensures s'.contacts[i] == Relinked(s, supplier, form.factories, s.contacts[i])
    {
      KeptContact(s, s', supplier, form, ids, i);
    }
    forall d
      ensures multiset(s'.declarations)[d]
              == if d in s.declarations && Safe(s, supplier, form.factories, d.factory) then multiset(s.declarations)[d]
                 else 0
    {
      KeptDeclarations(s, s', supplier, form, ids, d);
    }
  }

  /** The same company, but a blank country is filled from the first mining entry that states one. */
  ghost predicate CountryFilled(company: Company, now: Company, forms: seq<FactoryForm>) {
    var blank := company.country.None? || company.country.value == "";
    && now.name == company.name && now.providerType == company.providerType
    && (forall i: nat | blank && FirstMine(forms, i) :: now.country == forms[i].values.country)
    && (!blank || (forall i | 0 <= i < |forms| :: !StatesMine(forms[i])) ==> now.country == company.country)
  }

  /** That is all that happens to the suppliers' rows. */
  ghost predicate CountryFilledAtMost(sup: map<SupplierId, Supplier>, now: map<SupplierId, Supplier>,
                                      supplier: SupplierId, forms: seq<FactoryForm>)
  {
    && now.Keys == sup.Keys && (forall x | x in sup && x != supplier :: now[x] == sup[x])
    && (supplier in sup ==> now[supplier].other == sup[supplier].other
                            && CountryFilled(sup[supplier].company, now[supplier].company, forms))
  }

  lemma OnBehalfRow(sup: map<SupplierId, Supplier>, supplier: SupplierId, forms: seq<FactoryForm>)
    ensures CountryFilledAtMost(sup, Backfilled(sup, supplier, forms), supplier, forms)
  {
    MiningCountryExactly(forms);
    FirstMineIsUnique(forms);
  }

  /** A stored contact after the sync: unlinked where its factory went. */
  function Relinked(s: Store, supplier: SupplierId, forms: seq<FactoryForm>, c: Contact): Contact {
    if c.factory.Some? && c.factory.value in s.factories && !Safe(s, supplier, forms, c.factory.value)
    then c.(factory := None) else c
  }

  lemma KeptContact(s: Store, mid: Store, supplier: SupplierId, form: Form, ids: seq<FactoryId>, i: nat)
    requires KeysHold(s) && Synced(s, mid, supplier, form.factories, ids) && i < |s.contacts|
    ensures |mid.contacts| == |s.contacts|
    ensures mid.contacts[i] == Relinked(s, supplier, form.factories, s.contacts[i])
  {
    var c := s.contacts[i];
    assert c in s.contacts;
    UnlinkedMembers(s.contacts, mid.factories.Keys);
    if c.factory.Some? {
      FactoryStaysIff(s, mid, supplier, form.factories, ids, c.factory.value);
    }
  }

  lemma KeptDeclarations(s: Store, mid: Store, supplier: SupplierId, form: Form, ids: seq<FactoryId>, d: Declaration)
    requires KeysHold(s) && Synced(s, mid, supplier, form.factories, ids)
    ensures multiset(mid.declarations)[d]
            == if d in s.declarations && Safe(s, supplier, form.factories, d.factory) then multiset(s.declarations)[d]
               else 0
  {
    DroppedCount(s.declarations, mid.factories.Keys, d);
    if d in s.declarations {
      FactoryStaysIff(s, mid, supplier, form.factories, ids, d.factory);
    }
  }

  /** So the contacts are untouched exactly when none belongs to a factory of this supplier that the form does not name
      and that no supply ratio or audit record names. */
  lemma OnBehalfContactsUntouchedIff(s: Store, s': Store, supplier: SupplierId, form: Form, ids: seq<FactoryId>)
    requires KeysHold(s) && Submitted(s, s', supplier, form, true, ids)
    ensures s'.contacts == s.contacts <==>
            forall c | c in s.contacts && c.factory.Some? ::
              || Listed(form.factories, c.factory.value)
              || c.factory.value in s.pinned
              || s.factories[c.factory.value].owner != supplier
  {
    NothingDropped(s.contacts, s.declarations, s'.factories.Keys);
    forall c | c in s.contacts && c.factory.Some?
      ensures c.factory.value in s'.factories <==> Safe(s, supplier, form.factories, c.factory.value)
    {
      FactoryStaysIff(s, s', supplier, form.factories, ids, c.factory.value);
    }
  }

  /** And the carbon declarations, the rows of the manufacturing section beside the details, under the same condition on
      their factories. */
  lemma OnBehalfDeclarationsUntouchedIff(s: Store, s': Store, supplier: SupplierId, form: Form, ids: seq<FactoryId>)
    requires KeysHold(s) && Submitted(s, s', supplier, form, true, ids)
    ensures s'.declarations == s.declarations <==>
            forall d | d in s.declarations ::
              || Listed(form.factories, d.factory)
              || d.factory in s.pinned
              || s.factories[d.factory].owner != supplier
  {
    NothingDropped(s.contacts, s.declarations, s'.factories.Keys);
    forall d | d in s.declarations
      ensures d.factory in s'.factories <==> Safe(s, supplier, form.factories, d.factory)
    {
      FactoryStaysIff(s, s', supplier, form.factories, ids, d.factory);
    }
  }

  /** It does delete one: a mine with one factory and one carbon declaration, submitted for it with an empty factory
      list. */
  lemma OnBehalfDeletesADeclaration(s': Store, ids: seq<FactoryId>) returns (s: Store, form: Form)
    ensures KeysHold(s) && s.suppliers.Keys == {1} && s.suppliers[1].company.providerType == "miner"
    ensures s.declarations == [Declaration(10, "footprint")] && form.factories == []
    ensures Submitted(s, s', 1, form, true, ids) ==> s'.declarations == []
    ensures Submitted(s, s.(factories := map[], declarations := []), 1, form, true, [])
  {
    var company := Company("Mine", "miner", Some("CL"));
    s := Store(map[1 := Supplier(company, "")], map[10 := Factory(1, true, FactoryValues("mining", None, ""))], {},
               [], map[], [Declaration(10, "footprint")], map[]);
    form := Form(company, [], [], None, None);
    assert DropDeclarations(s.declarations, {}) == [];
    if Submitted(s, s', 1, form, true, ids) {
      assert s'.factories.Keys == {};
    }
    var none: map<FactoryId, Factory> := map[];
    assert none.Keys == {} && UnlinkContacts([], none.Keys) == [];
    assert s.suppliers == Backfilled(s.suppliers, 1, []);
  }

  /** A contact does get unlinked: a mine with one factory and one contact, submitted for it with an empty factory
      list. */
  lemma OnBehalfUnlinksAContact(s': Store, ids: seq<FactoryId>) returns (s: Store, form: Form)
    ensures KeysHold(s) && s.suppliers.Keys == {1} && s.suppliers[1].company.providerType == "miner"
    ensures s.contacts == [Contact(1, Some(10), "site manager")] && form.factories == []
    ensures Submitted(s, s', 1, form, true, ids) ==> s'.contacts == [Contact(1, None, "site manager")]
    ensures Submitted(s, s.(factories := map[], contacts := [Contact(1, None, "site manager")]), 1, form, true, [])
  {
    var company := Company("Mine", "miner", Some("CL"));
    var linked, unlinked := [Contact(1, Some(10), "site manager")], [Contact(1, None, "site manager")];
    s := Store(map[1 := Supplier(company, "")], map[10 := Factory(1, true, FactoryValues("mining", None, ""))], {},
               linked, map[], [], map[]);
    form := Form(company, [], [], None, None);
    UnlinkedMembers(linked, {});
    assert UnlinkContacts(linked, {}) == unlinked;
    if Submitted(s, s', 1, form, true, ids) {
      assert s'.factories.Keys == {};
    }
    var none: map<FactoryId, Factory> := map[];
    assert none.Keys == {} && DropDeclarations([], none.Keys) == [];
    assert s.suppliers == Backfilled(s.suppliers, 1, []);
  }

  // ---------------------------------------------------------------------
  // What the supplier's own submission stores, row by row.
  // ---------------------------------------------------------------------

  predicate StatesMine(f: FactoryForm) {
    f.values.role == "mining" && f.values.country.Some? && f.values.country.value != ""
  }

  /** Entry i is the first mining entry that states a country. */
  predicate FirstMine(forms: seq<FactoryForm>, i: nat) {
    i < |forms| && StatesMine(forms[i]) && forall j | 0 <= j < i :: !StatesMine(forms[j])
  }

  lemma {:induction false} MiningCountryExactly(forms: seq<FactoryForm>)
    ensures MiningCountry(forms).Some? ==>
              exists i: nat :: FirstMine(forms, i) && MiningCountry(forms) == forms[i].values.country
    ensures MiningCountry(forms).None? ==> forall i | 0 <= i < |forms| :: !StatesMine(forms[i])
  {
    if forms == [] {
    } else {
      var front, n := forms[..|forms| - 1], |forms| - 1;
      MiningCountryExactly(front);
      if MiningCountry(front).Some? {
        var i: nat :| FirstMine(front, i) && MiningCountry(front) == front[i].values.country;
        assert FirstMine(forms, i);
      } else {
        assert forall i | 0 <= i < n :: forms[i] == front[i];
        assert MiningCountry(forms).Some? ==> FirstMine(forms, n);
      }
    }
  }

  function OthersAt(cs: seq<Contact>, supplier: SupplierId): set<nat> {
    set i: nat | i < |cs| && cs[i].owner != supplier
  }

  lemma OthersAtNext(cs: seq<Contact>, c: Contact, supplier: SupplierId)
    ensures forall i: nat :: i in OthersAt(cs + [c], supplier)
                             <==> i in OthersAt(cs, supplier) || (c.owner != supplier && i == |cs|)
  {
  }

  lemma {:induction false} OthersContactsExactly(cs: seq<Contact>, supplier: SupplierId) returns (at: seq<nat>)
    ensures Lists(at, OthersAt(cs, supplier)) && Selects(OthersContacts(cs, supplier), cs, at)
  {
    if cs == [] {
      at := [];
    } else {
      var front, c := cs[..|cs| - 1], cs[|cs| - 1];
      assert cs == front + [c];
      at := OthersContactsExactly(front, supplier);
      OthersAtNext(front, c, supplier);
      ListsNext(at, OthersAt(front, supplier), |front|, c.owner != supplier, OthersAt(cs, supplier));
      SelectsNext(OthersContacts(front, supplier), front, at, c, c.owner != supplier);
      at := if c.owner != supplier then at + [|front|] else at;
    }
  }

  function NamedAt(ds: seq<Declaration>, keys: set<FactoryId>): set<nat> {
    set i: nat | i < |ds| && ds[i].factory in keys
  }

  lemma NamedAtNext(ds: seq<Declaration>, d: Declaration, keys: set<FactoryId>)
    ensures forall i: nat :: i in NamedAt(ds + [d], keys)
                             <==> i in NamedAt(ds, keys) || (d.factory in keys && i == |ds|)
  {
  }

  lemma {:induction false} DropDeclarationsExactly(ds: seq<Declaration>, keys: set<FactoryId>) returns (at: seq<nat>)
    ensures Lists(at, NamedAt(ds, keys)) && Selects(DropDeclarations(ds, keys), ds, at)
  {
    if ds == [] {
      at := [];
    } else {
      var front, d := ds[..|ds| - 1], ds[|ds| - 1];
      assert ds == front + [d];
      at := DropDeclarationsExactly(front, keys);
      NamedAtNext(front, d, keys);
      ListsNext(at, NamedAt(front, keys), |front|, d.factory in keys, NamedAt(ds, keys));
      SelectsNext(DropDeclarations(front, keys), front, at, d, d.factory in keys);
      at := if d.factory in keys then at + [|front|] else at;
    }
  }

  lemma {:induction false} ElsewhereIsDropping(ds: seq<Declaration>, keys: set<FactoryId>, ids: seq<FactoryId>)
    ensures DeclarationsElsewhere(DropDeclarations(ds, keys), ids) == DropDeclarations(ds, keys - set x | x in ids)
  {
    if ds == [] {
    } else {
      var d, rest := ds[|ds| - 1], DropDeclarations(ds[..|ds| - 1], keys);
      ElsewhereIsDropping(ds[..|ds| - 1], keys, ids);
      if d.factory in keys {
        assert DropDeclarations(ds, keys) == rest + [d];
        assert (rest + [d])[..|rest|] == rest;
      } else {
        assert DropDeclarations(ds, keys) == rest;
      }
    }
  }

  predicate InRange(f: DeclarationForm, ids: seq<FactoryId>) {
    f.factoryIndex.Some? && 0 <= f.factoryIndex.value < |ids|
  }

  function InRangeAt(forms: seq<DeclarationForm>, ids: seq<FactoryId>): set<nat> {
    set i: nat | i < |forms| && InRange(forms[i], ids)
  }

  lemma InRangeAtNext(forms: seq<DeclarationForm>, f: DeclarationForm, ids: seq<FactoryId>)
    ensures forall i: nat :: i in InRangeAt(forms + [f], ids)
                             <==> i in InRangeAt(forms, ids) || (InRange(f, ids) && i == |forms|)
  {
  }

  /** out holds what the listed forms declare. */
  ghost predicate DeclaredFrom(out: seq<Declaration>, forms: seq<DeclarationForm>, ids: seq<FactoryId>, at: seq<nat>) {
    |out| == |at| && forall k | 0 <= k < |at| :: at[k] < |forms| && IsDeclared(out[k], forms[at[k]], ids)
  }

  lemma DeclaredNext(out: seq<Declaration>, forms: seq<DeclarationForm>, ids: seq<FactoryId>, at: seq<nat>,
                     f: DeclarationForm)
    requires DeclaredFrom(out, forms, ids, at)
    ensures DeclaredFrom(out, forms + [f], ids, at)
    ensures InRange(f, ids) ==>
              DeclaredFrom(out + [Declaration(ids[f.factoryIndex.value], f.data)], forms + [f], ids, at + [|forms|])
  {
  }

  lemma {:induction false} NewDeclarationsInOrder(forms: seq<DeclarationForm>, ids: seq<FactoryId>)
      returns (at: seq<nat>)
    ensures Lists(at, InRangeAt(forms, ids)) && DeclaredFrom(NewDeclarations(forms, ids), forms, ids, at)
  {
    if forms == [] {
      at := [];
    } else {
      var front, f := forms[..|forms| - 1], forms[|forms| - 1];
      assert forms == front + [f];
      at := NewDeclarationsInOrder(front, ids);
      InRangeAtNext(front, f, ids);
      ListsNext(at, InRangeAt(front, ids), |front|, InRange(f, ids), InRangeAt(forms, ids));
      DeclaredNext(NewDeclarations(front, ids), front, ids, at, f);
      at := if InRange(f, ids) then at + [|front|] else at;
    }
  }

  /** The form's contact, linked to the factory at its index if there is one. */
  predicate IsFromForm(c: Contact, f: ContactForm, supplier: SupplierId, ids: seq<FactoryId>) {
    && c.owner == supplier && c.data == f.data
    && if f.factoryIndex.Some? && 0 <= f.factoryIndex.value < |ids| then c.factory == Some(ids[f.factoryIndex.value])
       else c.factory == None
  }

  /** The contacts are those of others, in order, and then the form's. */
  ghost predicate ContactsStored(s: Store, cs: seq<Contact>, supplier: SupplierId, form: Form, ids: seq<FactoryId>,
                                 at: seq<nat>)
  {
    && Lists(at, OthersAt(s.contacts, supplier)) && |cs| == |at| + |form.contacts|
    && (forall k | 0 <= k < |at| ::
          at[k] < |s.contacts| && cs[k] == Relinked(s, supplier, form.factories, s.contacts[at[k]]))
    && (forall k | 0 <= k < |form.contacts| :: IsFromForm(cs[|at| + k], form.contacts[k], supplier, ids))
  }

  /** Which stored declarations stay: their factory does, and with a manufacturing section the form does not list it. */
  predicate Stays(s: Store, supplier: SupplierId, form: Form, ids: seq<FactoryId>, d: Declaration) {
    && d.factory in s.factories && Safe(s, supplier, form.factories, d.factory)
    && (form.manufacturing.Some? ==> d.factory !in ids)
  }

  function StaysAt(s: Store, supplier: SupplierId, form: Form, ids: seq<FactoryId>): set<nat> {
    set i: nat | i < |s.declarations| && Stays(s, supplier, form, ids, s.declarations[i])
  }

  predicate IsDeclared(d: Declaration, f: DeclarationForm, ids: seq<FactoryId>) {
    InRange(f, ids) && d.factory == ids[f.factoryIndex.value] && d.data == f.data
  }

  /** The declarations are those that stay, in order, and then the form's that point at a listed factory. */
  ghost predicate DeclarationsStored(s: Store, ds: seq<Declaration>, supplier: SupplierId, form: Form,
                                     ids: seq<FactoryId>, at: seq<nat>, added: seq<nat>)
  {
    var forms := DeclaredIn(form);
    && Lists(at, StaysAt(s, supplier, form, ids)) && Lists(added, InRangeAt(forms, ids)) && |ds| == |at| + |added|
    && (forall k | 0 <= k < |at| :: at[k] < |s.declarations| && ds[k] == s.declarations[at[k]])
    && (forall k | 0 <= k < |added| :: added[k] < |forms| && IsDeclared(ds[|at| + k], forms[added[k]], ids))
  }

  /** A value per supplier that the form replaces if it states one. */
  ghost predicate Replaced(before: map<SupplierId, string>, now: map<SupplierId, string>, supplier: SupplierId,
                           value: Option<string>)
  {
    && now.Keys == before.Keys + (if value.Some? then {supplier} else {})
    && (forall x | x in before && (x != supplier || value.None?) :: now[x] == before[x])
    && (value.Some? ==> now[supplier] == value.value)
  }

  function DetailsGiven(form: Form): Option<string> {
    if form.manufacturing.Some? then Some(form.manufacturing.value.details) else None
  }

  /** The supplier's own submission, section by section. */
  lemma OwnSubmissionExactly(s: Store, s': Store, supplier: SupplierId, form: Form, ids: seq<FactoryId>)
      returns (others: seq<nat>, stay: seq<nat>, added: seq<nat>)
    requires KeysHold(s) && Submitted(s, s', supplier, form, false, ids)
    ensures s'.suppliers.Keys == s.suppliers.Keys && supplier in s.suppliers && s'.pinned == s.pinned
    ensures forall x | x in s.suppliers && x != supplier :: s'.suppliers[x] == s.suppliers[x]
    ensures s'.suppliers[supplier].other == s.suppliers[supplier].other
    ensures CountryFilled(form.company, s'.suppliers[supplier].company, form.factories)
    ensures FactoriesSynced(s, s', supplier, form.factories, ids)
    ensures ContactsStored(s, s'.contacts, supplier, form, ids, others)
    ensures DeclarationsStored(s, s'.declarations, supplier, form, ids, stay, added)
    ensures Replaced(s.details, s'.details, supplier, DetailsGiven(form))
    ensures Replaced(s.selfRisk, s'.selfRisk, supplier, form.selfRisk)
  {
    var s1 := CompanyWritten(s, supplier, form.company);
    var mid :| Synced(s1, mid, supplier, form.factories, ids) && s' == OtherSectionsWritten(mid, supplier, form, ids);
    OwnCompany(s, mid, supplier, form, ids);
    OwnValues(mid, supplier, form, ids);
    others := OwnContacts(s1, mid, supplier, form, ids);
    stay, added := OwnDeclarations(s1, mid, supplier, form, ids);
    SameContacts(s, s1, s', supplier, form, ids, others);
    SameDeclarations(s, s1, s', supplier, form, ids, stay, added);
    SameFactories(s, s1, mid, s', supplier, form, ids);
  }

  lemma OwnValues(mid: Store, supplier: SupplierId, form: Form, ids: seq<FactoryId>)
    ensures var s' := OtherSectionsWritten(mid, supplier, form, ids);
            && Replaced(mid.details, s'.details, supplier, DetailsGiven(form))
            && Replaced(mid.selfRisk, s'.selfRisk, supplier, form.selfRisk)
            && s'.suppliers == mid.suppliers && s'.pinned == mid.pinned
  {
  }

  /** The company columns play no part in the other sections. */
  lemma SameContacts(s: Store, s1: Store, s': Store, supplier: SupplierId, form: Form, ids: seq<FactoryId>,
                     at: seq<nat>)
    requires s1 == s.(suppliers := s1.suppliers) && ContactsStored(s1, s'.contacts, supplier, form, ids, at)
    ensures ContactsStored(s, s'.contacts, supplier, form, ids, at)
  {
    forall c: Contact
      ensures Relinked(s1, supplier, form.factories, c) == Relinked(s, supplier, form.factories, c)
    {
    }
  }

  lemma SameDeclarations(s: Store, s1: Store, s': Store, supplier: SupplierId, form: Form, ids: seq<FactoryId>,
                         at: seq<nat>, added: seq<nat>)
    requires s1 == s.(suppliers := s1.suppliers)
    requires DeclarationsStored(s1, s'.declarations, supplier, form, ids, at, added)
    ensures DeclarationsStored(s, s'.declarations, supplier, form, ids, at, added)
  {
    assert StaysAt(s1, supplier, form, ids) == StaysAt(s, supplier, form, ids);
  }

  lemma SameFactories(s: Store, s1: Store, mid: Store, s': Store, supplier: SupplierId, form: Form, ids: seq<FactoryId>)
    requires s1 == s.(suppliers := s1.suppliers) && s'.factories == mid.factories
    requires FactoriesSynced(s1, mid, supplier, form.factories, ids)
    ensures FactoriesSynced(s, s', supplier, form.factories, ids)
  {
    assert Owned(s1, supplier) == Owned(s, supplier);
  }

  lemma OwnCompany(s: Store, mid: Store, supplier: SupplierId, form: Form, ids: seq<FactoryId>)
    requires supplier in s.suppliers
    requires Synced(CompanyWritten(s, supplier, form.company), mid, supplier, form.factories, ids)
    ensures mid.suppliers.Keys == s.suppliers.Keys && mid.suppliers[supplier].other == s.suppliers[supplier].other
    ensures forall x | x in s.suppliers && x != supplier :: mid.suppliers[x] == s.suppliers[x]
    ensures CountryFilled(form.company, mid.suppliers[supplier].company, form.factories)
  {
    OwnCompanyRow(s.suppliers, supplier, form);
  }

  lemma OwnCompanyRow(sup: map<SupplierId, Supplier>, supplier: SupplierId, form: Form)
    requires supplier in sup
    ensures var now := Backfilled(sup[supplier := sup[supplier].(company := form.company)], supplier, form.factories);
            && now.Keys == sup.Keys && now[supplier].other == sup[supplier].other
            && (forall x | x in sup && x != supplier :: now[x] == sup[x])
            && CountryFilled(form.company, now[supplier].company, form.factories)
  {
    MiningCountryExactly(form.factories);
    FirstMineIsUnique(form.factories);
  }

  lemma FirstMineIsUnique(forms: seq<FactoryForm>)
    ensures forall i: nat, j: nat | FirstMine(forms, i) && FirstMine(forms, j) :: i == j
    ensures forall i: nat | FirstMine(forms, i) :: StatesMine(forms[i])
  {
  }

  lemma SameOwners(cs: seq<Contact>, keys: set<FactoryId>, supplier: SupplierId)
    ensures OthersAt(UnlinkContacts(cs, keys), supplier) == OthersAt(cs, supplier)
  {
    UnlinkedMembers(cs, keys);
  }

  lemma KeptContacts(s: Store, mid: Store, supplier: SupplierId, form: Form, ids: seq<FactoryId>)
      returns (at: seq<nat>)
    requires KeysHold(s) && Synced(s, mid, supplier, form.factories, ids)
    ensures Lists(at, OthersAt(s.contacts, supplier)) && |OthersContacts(mid.contacts, supplier)| == |at|
    ensures forall k | 0 <= k < |at| ::
              && at[k] < |s.contacts|
              && OthersContacts(mid.contacts, supplier)[k] == Relinked(s, supplier, form.factories, s.contacts[at[k]])
  {
    at := OthersContactsExactly(mid.contacts, supplier);
    SameOwners(s.contacts, mid.factories.Keys, supplier);
    forall k | 0 <= k < |at|
      ensures at[k] < |s.contacts|
      ensures OthersContacts(mid.contacts, supplier)[k] == Relinked(s, supplier, form.factories, s.contacts[at[k]])
    {
      assert at[k] in at;
      KeptContact(s, mid, supplier, form, ids, at[k]);
    }
  }

  lemma OwnContacts(s: Store, mid: Store, supplier: SupplierId, form: Form, ids: seq<FactoryId>)
      returns (at: seq<nat>)
    requires KeysHold(s) && Synced(s, mid, supplier, form.factories, ids)
    ensures ContactsStored(s, OtherSectionsWritten(mid, supplier, form, ids).contacts, supplier, form, ids, at)
  {
    at := KeptContacts(s, mid, supplier, form, ids);
    ContactsLinkByIndex(supplier, form.contacts, ids);
    forall k | 0 <= k < |form.contacts|
      ensures IsFromForm(NewContacts(supplier, form.contacts, ids)[k], form.contacts[k], supplier, ids)
    {
    }
  }

  lemma StaysIffKept(s: Store, mid: Store, supplier: SupplierId, form: Form, ids: seq<FactoryId>)
    requires KeysHold(s) && Synced(s, mid, supplier, form.factories, ids)
    ensures NamedAt(s.declarations, KeysKept(mid, form, ids)) == StaysAt(s, supplier, form, ids)
  {
    var keys := KeysKept(mid, form, ids);
    forall i: nat | i < |s.declarations|
      ensures s.declarations[i].factory in keys <==> Stays(s, supplier, form, ids, s.declarations[i])
    {
      assert s.declarations[i] in s.declarations;
      FactoryStaysIff(s, mid, supplier, form.factories, ids, s.declarations[i].factory);
    }
  }

  lemma DeclarationsJoined(s: Store, supplier: SupplierId, form: Form, ids: seq<FactoryId>, kept: seq<Declaration>,
                           recent: seq<Declaration>, at: seq<nat>, added: seq<nat>)
    requires Lists(at, StaysAt(s, supplier, form, ids)) && Selects(kept, s.declarations, at)
    requires Lists(added, InRangeAt(DeclaredIn(form), ids)) && DeclaredFrom(recent, DeclaredIn(form), ids, added)
    ensures DeclarationsStored(s, kept + recent, supplier, form, ids, at, added)
  {
  }

  function DeclaredIn(form: Form): seq<DeclarationForm> {
    if form.manufacturing.Some? then form.manufacturing.value.declarations else []
  }

  function KeysKept(mid: Store, form: Form, ids: seq<FactoryId>): set<FactoryId> {
    if form.manufacturing.Some? then mid.factories.Keys - set x | x in ids else mid.factories.Keys
  }

  lemma DeclarationsWritten(ds: seq<Declaration>, mid: Store, supplier: SupplierId, form: Form, ids: seq<FactoryId>)
    requires mid.declarations == DropDeclarations(ds, mid.factories.Keys)
    ensures OtherSectionsWritten(mid, supplier, form, ids).declarations
            == DropDeclarations(ds, KeysKept(mid, form, ids)) + NewDeclarations(DeclaredIn(form), ids)
  {
    if form.manufacturing.Some? {
      ElsewhereIsDropping(ds, mid.factories.Keys, ids);
    } else {
      assert NewDeclarations([], ids) == [];
      assert mid.declarations + [] == mid.declarations;
    }
  }

  lemma OwnDeclarations(s: Store, mid: Store, supplier: SupplierId, form: Form, ids: seq<FactoryId>)
      returns (at: seq<nat>, added: seq<nat>)
    requires KeysHold(s) && Synced(s, mid, supplier, form.factories, ids)
    ensures DeclarationsStored(s, OtherSectionsWritten(mid, supplier, form, ids).declarations, supplier, form, ids, at,
                               added)
  {
    var keys := KeysKept(mid, form, ids);
    at := DropDeclarationsExactly(s.declarations, keys);
    StaysIffKept(s, mid, supplier, form, ids);
    added := NewDeclarationsInOrder(DeclaredIn(form), ids);
    DeclarationsWritten(s.declarations, mid, supplier, form, ids);
    DeclarationsJoined(s, supplier, form, ids, DropDeclarations(s.declarations, keys),
                       NewDeclarations(DeclaredIn(form), ids), at, added);
  }

  /** A section is reported exactly when it was written: never twice, in the fixed order. */
  lemma SectionsExactly(form: Form, onBehalf: bool, x: Section)
    ensures x in SectionsSaved(form, onBehalf) <==>
            match x
            case CompanySection => !onBehalf
            case FactoriesSection => form.factories != []
            case ContactsSection => !onBehalf && form.contacts != []
            case ManufacturingSection => !onBehalf && form.manufacturing.Some?
            case SelfAssessment => !onBehalf && form.selfRisk.Some?
    ensures var all := SectionsSaved(form, onBehalf);
            forall i, j | 0 <= i < j < |all| :: Place(all[i]) < Place(all[j])
  {
  }

  function Place(x: Section): nat {
    match x
    case CompanySection => 0
    case FactoriesSection => 1
    case ContactsSection => 2
    case ManufacturingSection => 3
    case SelfAssessment => 4
  }

  /** Each submitted contact is linked to the factory at its index, and to none when the index is out of range. */
  lemma ContactsLinkByIndex(supplier: SupplierId, forms: seq<ContactForm>, ids: seq<FactoryId>)
    ensures |NewContacts(supplier, forms, ids)| == |forms|
    ensures forall i | 0 <= i < |forms| ::
              var c := NewContacts(supplier, forms, ids)[i];
              && c.owner == supplier && c.data == forms[i].data
              && (match forms[i].factoryIndex
                  case None => c.factory == None
                  case Some(k) => if 0 <= k < |ids| then c.factory == Some(ids[k]) else c.factory == None)
  {
    if forms == [] {
    } else {
      ContactsLinkByIndex(supplier, forms[..|forms| - 1], ids);
    }
  }

  /** A listed factory's declarations afterwards are exactly the submitted ones that point at it. */
  lemma DeclarationsLinkByIndex(ds: seq<Declaration>, forms: seq<DeclarationForm>, ids: seq<FactoryId>, d: Declaration)
    requires d.factory in ids
    ensures d in DeclarationsElsewhere(ds, ids) + NewDeclarations(forms, ids) <==>
            exists f, k: nat ::
              f in forms && f.factoryIndex == Some(k) && k < |ids| && ids[k] == d.factory && f.data == d.data
  {
    ElsewhereAreOld(ds, ids);
    NewDeclarationsExactly(forms, ids, d);
  }

  lemma NewDeclarationsExactly(forms: seq<DeclarationForm>, ids: seq<FactoryId>, d: Declaration)
    ensures d in NewDeclarations(forms, ids) <==>
            exists f, k: nat ::
              f in forms && f.factoryIndex == Some(k) && k < |ids| && ids[k] == d.factory && f.data == d.data
  {
    if forms == [] {
    } else {
      var front, last := forms[..|forms| - 1], forms[|forms| - 1];
      assert forms == front + [last];
      NewDeclarationsExactly(front, ids, d);
    }
  }

  lemma ContactAdded(s: Store, c: Contact)
    requires KeysHold(s) && (c.factory.Some? ==> c.factory.value in s.factories)
    ensures KeysHold(s.(contacts := s.contacts + [c]))
  {
  }

  lemma DeclarationAdded(s: Store, d: Declaration)
    requires KeysHold(s) && d.factory in s.factories
    ensures KeysHold(s.(declarations := s.declarations + [d]))
  {
  }

  lemma PruneStep(s: Store, s1: Store, s2: Store, done: set<FactoryId>, x: FactoryId)
    requires Pruned(s, s1, done) && x in s1.factories && x !in done && s2 == Removed(s1, x)
    ensures Pruned(s, s2, done + {x})
  {
    if x in s1.pinned {
      assert s2.factories.Keys == s1.factories.Keys;
    } else {
      var keys, fewer := s1.factories.Keys, s1.factories.Keys - {x};
      assert s2.factories.Keys == fewer;
      UnlinkTwice(s.contacts, keys, fewer);
      DropTwice(s.declarations, keys, fewer);
    }
  }
}
