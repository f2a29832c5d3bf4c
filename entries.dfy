/**
 * The entry operations: listing the user's entries, creating one after the
 * body validation, and the ownership gate shared by update and delete.
 */
module Entries {
  import opened Ledger
  import opened Summary

  /** The user's entries, as the store returns them. */
  function ListFinances(userId: UserId, store: seq<Entry>): (r: Outcome<seq<Entry>>)
    ensures r.Ok?
    ensures forall e :: e in r.value <==> e in store && e.owner == userId
  {
    Ok(OwnedBy(store, userId))
  }

  // ---------------------------------------------------------------------
  // Creation
  // ---------------------------------------------------------------------

  /** The creation body; `None` is an absent field. */
  datatype NewEntry = NewEntry(title: Option<string>, amount: Option<int>, kind: Option<string>, category: Option<string>)

  /** JavaScript truthiness of a numeric field: present and not zero. */
  predicate Nonzero(n: Option<int>)
  {
    n.Some? && n.value != 0
  }

  /** Every required field is truthy. */
  predicate Complete(b: NewEntry)
  {
    Given(b.title) && Nonzero(b.amount) && Given(b.kind) && Given(b.category)
  }

  predicate KnownKind(kind: string)
  {
    kind == Income || kind == Expense
  }

  predicate KnownCategory(category: string)
  {
    category in Categories
  }

  /**
   * The creation handler: every field required, then the type must be
   * income or expense, then the category one of the eight; the store
   * assigns the id and the creation time, and the owner is the requester.
   */
  function CreateFinance(userId: UserId, body: NewEntry, id: EntryId, now: int): (r: Outcome<Entry>)
    ensures r == ValidationError(MissingFields) <==> !Complete(body)
    ensures r == ValidationError(BadType) <==> Complete(body) && !KnownKind(body.kind.value)
    ensures r == ValidationError(BadCategory) <==>
      Complete(body) && KnownKind(body.kind.value) && !KnownCategory(body.category.value)
    ensures r.Ok? <==> Complete(body) && KnownKind(body.kind.value) && KnownCategory(body.category.value)
    ensures r.Ok? || r.ValidationError?
    ensures r.Ok? ==>
      && r.value.id == id && r.value.owner == userId && r.value.createdAt == now
      && r.value.title == body.title.value && r.value.amount == body.amount.value
      && r.value.kind == body.kind.value && r.value.category == body.category.value
  {
    if !Given(body.title) || !Nonzero(body.amount) || !Given(body.kind) || !Given(body.category) then
      ValidationError(MissingFields)
    else if !(body.kind.value in [Income, Expense]) then
      ValidationError(BadType)
    else if !(body.category.value in Categories) then
      ValidationError(BadCategory)
    else
      Ok(Entry(id, userId, body.title.value, body.amount.value, body.kind.value, body.category.value, now))
  }

  /** A zero amount counts as missing; a negative one is accepted. */
  lemma AmountZeroIsMissing(userId: UserId, body: NewEntry, id: EntryId, now: int)
    requires Given(body.title) && Given(body.kind) && Given(body.category)
    ensures body.amount == Some(0) ==> CreateFinance(userId, body, id, now) == ValidationError(MissingFields)
    ensures body.amount.Some? && body.amount.value < 0 && KnownKind(body.kind.value) && KnownCategory(body.category.value)
      ==> CreateFinance(userId, body, id, now).Ok?
  {
  }

  /** An entry that creation could have produced: a known type and a known category. */
  predicate Creatable(e: Entry)
  {
    KnownKind(e.kind) && KnownCategory(e.category)
  }

  /**
   * Creating an entry adds its amount to the owner's income or expense
   * total, according to its type, and leaves every other user's summary.
   */
  lemma CreationUpdatesSummary(userId: UserId, body: NewEntry, id: EntryId, now: int, store: seq<Entry>, other: UserId)
    requires CreateFinance(userId, body, id, now).Ok?
    requires other != userId
    ensures var e := CreateFinance(userId, body, id, now).value;
      && Creatable(e)
      && Summarize(OwnedBy(store + [e], userId)).totalIncome ==
         Summarize(OwnedBy(store, userId)).totalIncome + (if e.kind == Income then e.amount else 0)
      && Summarize(OwnedBy(store + [e], userId)).totalExpense ==
         Summarize(OwnedBy(store, userId)).totalExpense + (if e.kind == Expense then e.amount else 0)
      && Summarize(OwnedBy(store + [e], other)) == Summarize(OwnedBy(store, other))
  {
    var e := CreateFinance(userId, body, id, now).value;
    WhereSnoc(store, e, OwnerIs(userId));
    WhereSnoc(store, e, OwnerIs(other));
    assert OwnedBy(store + [e], userId) == OwnedBy(store, userId) + [e];
    assert OwnedBy(store + [e], other) == OwnedBy(store, other);
    SummarizeSnoc(OwnedBy(store, userId), e);
  }

  /**
   * In a store holding only created entries, income and expense together
   * account for every amount of the user.
   */
  lemma CreatedEntriesAreCounted(userId: UserId, store: seq<Entry>)
    requires forall e :: e in store ==> Creatable(e)
    ensures Summarize(OwnedBy(store, userId)).totalIncome + Summarize(OwnedBy(store, userId)).totalExpense ==
      Total(OwnedBy(store, userId))
  {
    TotalsCoverAllAmounts(OwnedBy(store, userId));
  }

  // ---------------------------------------------------------------------
  // The ownership gate
  // ---------------------------------------------------------------------

  /** The entry with the given id (`Finance.findById`), the first one if several. */
  function FindById(store: seq<Entry>, id: EntryId): (r: Option<Entry>)
    ensures r.Some? ==> r.value in store && r.value.id == id
    ensures r.None? <==> forall e :: e in store ==> e.id != id
  {
    if store == [] then None
    else if store[0].id == id then Some(store[0])
    else FindById(store[1..], id)
  }

  /**
   * The check before update and delete: the entry must exist and be owned
   * by the requester; an absent entry and another user's entry both give
   * not-found.
   */
  function Authorize(store: seq<Entry>, id: EntryId, userId: UserId): (r: Outcome<Entry>)
    ensures r.Ok? || r == NotFound
    ensures (forall e :: e in store ==> e.id != id) ==> r == NotFound
    ensures FindById(store, id).Some? && FindById(store, id).value.owner != userId ==> r == NotFound
    ensures r.Ok? <==> FindById(store, id).Some? && FindById(store, id).value.owner == userId
    ensures r.Ok? ==> r.value in store && r.value.id == id && r.value.owner == userId
  {
    var found := FindById(store, id);
    if found.None? || found.value.owner != userId then NotFound else Ok(found.value)
  }

  /** Another user can never get past the gate for an entry the requester owns. */
  lemma GateSeparatesUsers(store: seq<Entry>, id: EntryId, u1: UserId, u2: UserId)
    requires u1 != u2
    ensures !(Authorize(store, id, u1).Ok? && Authorize(store, id, u2).Ok?)
  {
  }

  /** Every id occurs at most once, as the store's primary key guarantees. */
  predicate UniqueIds(store: seq<Entry>)
  {
    forall i, j :: 0 <= i < j < |store| ==> store[i].id != store[j].id
  }

  /** The store with the entry of the given id replaced. */
  function ReplaceById(store: seq<Entry>, id: EntryId, e: Entry): (r: seq<Entry>)
    ensures |r| == |store|
    ensures forall i :: 0 <= i < |store| ==> r[i] == if store[i].id == id then e else store[i]
  {
    seq(|store|, i requires 0 <= i < |store| => if store[i].id == id then e else store[i])
  }

  // ---------------------------------------------------------------------
  // Update
  // ---------------------------------------------------------------------

  /** An update body: each field the request names, with its new value. */
  datatype Patch = Patch(
    title: Option<string>,
    amount: Option<int>,
    kind: Option<string>,
    category: Option<string>,
    owner: Option<UserId>,
    createdAt: Option<int>)

  function Pick<T>(given: Option<T>, current: T): T
  {
    if given.Some? then given.value else current
  }

  /** The update as issued: every field named in the body is written, the owner included. */
  function ApplyPatchAsWritten(e: Entry, p: Patch): (r: Entry)
    ensures r.id == e.id
    ensures p.owner.Some? ==> r.owner == p.owner.value
    ensures p.owner.None? ==> r.owner == e.owner
    ensures p.createdAt.Some? ==> r.createdAt == p.createdAt.value
  {
    Entry(e.id, Pick(p.owner, e.owner), Pick(p.title, e.title), Pick(p.amount, e.amount),
          Pick(p.kind, e.kind), Pick(p.category, e.category), Pick(p.createdAt, e.createdAt))
  }

  /** The result of a successful update: the new store and the updated entry. */
  datatype Updated = Updated(store: seq<Entry>, entry: Entry)

  /** The update handler as written: the gate, then the whole body applied. */
  function UpdateFinanceAsWritten(store: seq<Entry>, id: EntryId, userId: UserId, p: Patch): (r: Outcome<Updated>)
    ensures r.Ok? || r == NotFound
    ensures r.Ok? <==> Authorize(store, id, userId).Ok?
    ensures r.Ok? ==> r.value.entry == ApplyPatchAsWritten(Authorize(store, id, userId).value, p)
    ensures r.Ok? ==> r.value.store == ReplaceById(store, id, r.value.entry)
  {
    var gate := Authorize(store, id, userId);
    if gate.NotFound? then NotFound
    else
      var updated := ApplyPatchAsWritten(gate.value, p);
      Ok(Updated(ReplaceById(store, id, updated), updated))
  }

  /**
   * The owner of an entry can hand it to another user with an ordinary
   * update, after which it is gone from the owner's own listing.
   */
  lemma OwnerCanBeReassignedAsWritten()
    ensures var e := Entry("e1", "alice", "rent", 500, Expense, "utilities", 0);
      var r := UpdateFinanceAsWritten([e], "e1", "alice", Patch(None, None, None, None, Some("bob"), None));
      && r.Ok?
      && r.value.entry.owner == "bob"
      && OwnedBy(r.value.store, "alice") == []
  {
    var e := Entry("e1", "alice", "rent", 500, Expense, "utilities", 0);
    var r := UpdateFinanceAsWritten([e], "e1", "alice", Patch(None, None, None, None, Some("bob"), None));
    assert FindById([e], "e1") == Some(e);
    var e' := r.value.entry;
    assert r.value.store == [e'];
    WhereSnoc([], e', OwnerIs("alice"));
    assert [] + [e'] == [e'];
  }

  /** The update with the mutable fields whitelisted: title, amount, type and category. */
  function ApplyPatch(e: Entry, p: Patch): (r: Entry)
    ensures r.id == e.id && r.owner == e.owner && r.createdAt == e.createdAt
    ensures r.title == Pick(p.title, e.title) && r.amount == Pick(p.amount, e.amount)
    ensures r.kind == Pick(p.kind, e.kind) && r.category == Pick(p.category, e.category)
  {
    e.(title := Pick(p.title, e.title), amount := Pick(p.amount, e.amount),
       kind := Pick(p.kind, e.kind), category := Pick(p.category, e.category))
  }

  /** The update handler with the whitelist: the gate, then only the mutable fields. */
  function UpdateFinance(store: seq<Entry>, id: EntryId, userId: UserId, p: Patch): (r: Outcome<Updated>)
    ensures r.Ok? || r == NotFound
    ensures r.Ok? <==> Authorize(store, id, userId).Ok?
    ensures r.Ok? ==> r.value.entry == ApplyPatch(Authorize(store, id, userId).value, p)
    ensures r.Ok? ==> r.value.store == ReplaceById(store, id, r.value.entry)
  {
    var gate := Authorize(store, id, userId);
    if gate.NotFound? then NotFound
    else
      var updated := ApplyPatch(gate.value, p);
      Ok(Updated(ReplaceById(store, id, updated), updated))
  }

  /**
   * With the whitelist no entry changes hands or creation time, whatever
   * the body holds, and entries with other ids are untouched.
   */
  lemma UpdateKeepsOwnership(store: seq<Entry>, id: EntryId, userId: UserId, p: Patch)
    requires UniqueIds(store)
    requires UpdateFinance(store, id, userId, p).Ok?
    ensures var s := UpdateFinance(store, id, userId, p).value.store;
      && |s| == |store|
      && (forall i :: 0 <= i < |s| ==> s[i].id == store[i].id && s[i].owner == store[i].owner && s[i].createdAt == store[i].createdAt)
      && (forall i :: 0 <= i < |s| && store[i].id != id ==> s[i] == store[i])
  {
    var target := Authorize(store, id, userId).value;
    forall i | 0 <= i < |store| && store[i].id == id ensures store[i] == target {
      OnlyEntryWithId(store, target, store[i]);
    }
  }

  // ---------------------------------------------------------------------
  // Delete
  // ---------------------------------------------------------------------

  /** The test `_id != id`. */
  function IdIsNot(id: EntryId): Entry -> bool
  {
    (e: Entry) => e.id != id
  }

  /** The delete handler: the gate, then the entry removed. */
  function DeleteFinance(store: seq<Entry>, id: EntryId, userId: UserId): (r: Outcome<seq<Entry>>)
    ensures r.Ok? || r == NotFound
    ensures r.Ok? <==> Authorize(store, id, userId).Ok?
    ensures r.Ok? ==> |r.value| < |store|
    ensures r.Ok? ==> forall e :: e in r.value <==> e in store && e.id != id
  {
    var gate := Authorize(store, id, userId);
    if gate.NotFound? then NotFound
    else
      assert gate.value in store && !IdIsNot(id)(gate.value);
      WhereDrops(store, IdIsNot(id), gate.value);
      WhereMembership(store, IdIsNot(id));
      Ok(Where(store, IdIsNot(id)))
  }

  /** Filtering out an entry of the sequence shortens it. */
  lemma {:induction false} WhereDrops(s: seq<Entry>, p: Entry -> bool, x: Entry)
    requires x in s && !p(x)
    ensures |Where(s, p)| < |s|
    decreases |s|
  {
    var init, last := s[..|s| - 1], s[|s| - 1];
    assert s == init + [last];
    if last != x {
      WhereDrops(init, p, x);
    }
  }

  /**
   * Deleting leaves every other user's entries as they were, in the same
   * order, when ids are unique.
   */
  lemma DeleteSparesOtherUsers(store: seq<Entry>, id: EntryId, userId: UserId, other: UserId)
    requires UniqueIds(store)
    requires DeleteFinance(store, id, userId).Ok?
    requires other != userId
    ensures OwnedBy(DeleteFinance(store, id, userId).value, other) == OwnedBy(store, other)
  {
    var kept := Where(store, IdIsNot(id));
    var target := Authorize(store, id, userId).value;
    forall e | e in store && e.owner == other ensures e.id != id {
      if e.id == id {
        OnlyEntryWithId(store, target, e);
      }
    }
    var keptAndOther := (e: Entry) => e.id != id && e.owner == other;
    WhereWhere(store, IdIsNot(id), OwnerIs(other), keptAndOther);
    WhereCongruent(store, keptAndOther, OwnerIs(other));
  }

  /** With unique ids, two entries of the store with the same id are the same entry. */
  lemma OnlyEntryWithId(store: seq<Entry>, a: Entry, b: Entry)
    requires UniqueIds(store)
    requires a in store && b in store && a.id == b.id
    ensures a == b
  {
    var i :| 0 <= i < |store| && store[i] == a;
    var j :| 0 <= j < |store| && store[j] == b;
  }

  /**
   * Deleting removes the entry's amount from the owner's total of its type,
   * when ids are unique.
   */
  lemma DeleteUpdatesSummary(store: seq<Entry>, id: EntryId, userId: UserId)
    requires UniqueIds(store)
    requires DeleteFinance(store, id, userId).Ok?
    ensures var e := Authorize(store, id, userId).value;
      var after := Summarize(OwnedBy(DeleteFinance(store, id, userId).value, userId));
      var before := Summarize(OwnedBy(store, userId));
      && after.totalIncome == before.totalIncome - (if e.kind == Income then e.amount else 0)
      && after.totalExpense == before.totalExpense - (if e.kind == Expense then e.amount else 0)
  {
    var e := Authorize(store, id, userId).value;
    var kept := DeleteFinance(store, id, userId).value;
    assert kept == Where(store, IdIsNot(id));
    var i :| 0 <= i < |store| && store[i] == e;
    RemoveUnique(store, id, i);
    RemovedPermutation(store, i);
    var mine := OwnedBy(kept, userId);
    WherePermutation(store, kept + [e], OwnerIs(userId));
    WhereSnoc(kept, e, OwnerIs(userId));
    assert Where(kept + [e], OwnerIs(userId)) == mine + [e];
    SummarizePermutation(OwnedBy(store, userId), mine + [e]);
    SummarizeSnoc(mine, e);
  }

  /** Taking out the entry at `i` and putting it at the end is a permutation. */
  lemma RemovedPermutation(s: seq<Entry>, i: int)
    requires 0 <= i < |s|
    ensures multiset(s) == multiset(s[..i] + s[i + 1..] + [s[i]])
  {
    assert s == s[..i] + [s[i]] + s[i + 1..];
  }

  /** With unique ids, filtering out one id removes exactly the entry at its position. */
  lemma RemoveUnique(store: seq<Entry>, id: EntryId, i: int)
    requires UniqueIds(store)
    requires 0 <= i < |store| && store[i].id == id
    ensures Where(store, IdIsNot(id)) == store[..i] + store[i + 1..]
  {
    var p := IdIsNot(id);
    var before, x, after := store[..i], store[i], store[i + 1..];
    assert store == before + [x] + after;
    forall k | 0 <= k < |before| ensures p(before[k]) {
      assert before[k] == store[k];
      assert store[k].id != store[i].id;
    }
    forall k | 0 <= k < |after| ensures p(after[k]) {
      assert after[k] == store[i + 1 + k];
      assert store[i].id != store[i + 1 + k].id;
    }
    KeepAll(before, p);
    KeepAll(after, p);
    WhereSkips(before, x, after, p);
  }

  /** Filtering keeps the parts that pass and drops the one entry between them that fails. */
  lemma WhereSkips(before: seq<Entry>, x: Entry, after: seq<Entry>, p: Entry -> bool)
    requires Where(before, p) == before && Where(after, p) == after && !p(x)
    ensures Where(before + [x] + after, p) == before + after
  {
    WhereSnoc(before, x, p);
    WhereAppend(before + [x], after, p);
  }

  /** Filtering with a test every entry passes keeps the sequence as it is. */
  lemma {:induction false} KeepAll(s: seq<Entry>, p: Entry -> bool)
    requires forall k :: 0 <= k < |s| ==> p(s[k])
    ensures Where(s, p) == s
    decreases |s|
  {
    if s != [] {
      var init, x := s[..|s| - 1], s[|s| - 1];
      assert s == init + [x];
      assert forall k :: 0 <= k < |init| ==> init[k] == s[k];
      KeepAll(init, p);
      WhereSnoc(init, x, p);
    }
  }
}
