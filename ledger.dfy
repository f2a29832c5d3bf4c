/**
 * Ledger entries, handler outcomes, and the list operations (`filter`,
 * summing amounts, case-insensitive substring search) the controller is
 * built from.
 */
module Ledger {

  datatype Option<T> = None | Some(value: T)

  type UserId = string
  type EntryId = string

  /**
   * One stored income/expense record.  `kind` is the stored `type` field
   * (its values are not restricted here: the store holds what was written
   * to it); `createdAt` is assigned by the store.
   */
  datatype Entry = Entry(
    id: EntryId,
    owner: UserId,
    title: string,
    amount: int,
    kind: string,
    category: string,
    createdAt: int)

  const Income: string := "income"
  const Expense: string := "expense"

  /** The eight categories accepted when an entry is created. */
  const Categories: seq<string> :=
    ["salary", "education", "health", "food", "transportation", "entertainment", "utilities", "others"]

  /** Why a request was refused before the store was touched. */
  datatype Reason =
    | MissingFields     // a required body field is falsy
    | BadType           // the type is neither income nor expense
    | BadCategory       // the category is not one of the eight
    | MissingYear       // monthly statistics without a year
    | MissingDates      // a period report without both dates
    | BadDateFormat     // a period report date that does not parse
    | StartAfterEnd     // a period report whose start is after its end

  /**
   * What a handler answers: a value, a validation error (400), not found
   * (404, for absent and foreign entries alike) or a store failure (500).
   */
  datatype Outcome<T> = Ok(value: T) | ValidationError(reason: Reason) | NotFound | ServerError

  /** A query-string or body text counts as given when it is present and non-empty. */
  predicate Given(s: Option<string>)
  {
    s.Some? && s.value != ""
  }

  /** The entries of `s` that satisfy `p`, in their original order (`Array.prototype.filter`). */
  function Where(s: seq<Entry>, p: Entry -> bool): (r: seq<Entry>)
    ensures |r| <= |s|
  {
    if s == [] then [] else Where(s[..|s| - 1], p) + (if p(s[|s| - 1]) then [s[|s| - 1]] else [])
  }

  /** An entry is in the filtered sequence exactly when it is in the sequence and passes. */
  lemma {:induction false} WhereMembership(s: seq<Entry>, p: Entry -> bool)
    ensures forall e :: e in Where(s, p) <==> e in s && p(e)
    decreases |s|
  {
    if s != [] {
      var init, x := s[..|s| - 1], s[|s| - 1];
      assert s == init + [x];
      WhereMembership(init, p);
    }
  }

  /** Sum of the amounts (`reduce((acc, curr) => acc + curr.amount, 0)`). */
  function Total(s: seq<Entry>): (r: int)
    ensures |s| == 1 ==> r == s[0].amount
    ensures (forall i :: 0 <= i < |s| ==> s[i].amount >= 0) ==> r >= 0
  {
    if s == [] then 0 else Total(s[..|s| - 1]) + s[|s| - 1].amount
  }

  /** The test `item.type === kind`. */
  function KindIs(kind: string): Entry -> bool
  {
    (e: Entry) => e.kind == kind
  }

  /** The test `user == userId`. */
  function OwnerIs(user: UserId): Entry -> bool
  {
    (e: Entry) => e.owner == user
  }

  /** The entries of the given type. */
  function OfKind(s: seq<Entry>, kind: string): (r: seq<Entry>)
    ensures forall e :: e in r <==> e in s && e.kind == kind
  {
    WhereMembership(s, KindIs(kind));
    Where(s, KindIs(kind))
  }

  /** The entries owned by `user` (`Finance.find({ user })`). */
  function OwnedBy(s: seq<Entry>, user: UserId): (r: seq<Entry>)
    ensures forall e :: e in r <==> e in s && e.owner == user
  {
    WhereMembership(s, OwnerIs(user));
    Where(s, OwnerIs(user))
  }

  lemma {:induction false} WhereAppend(a: seq<Entry>, b: seq<Entry>, p: Entry -> bool)
    ensures Where(a + b, p) == Where(a, p) + Where(b, p)
    decreases |b|
  {
    if b == [] {
      assert a + b == a;
    } else {
      var b', x := b[..|b| - 1], b[|b| - 1];
      var tail := if p(x) then [x] else [];
      assert b == b' + [x];
      assert a + b == (a + b') + [x];
      WhereSnoc(a + b', x, p);
      WhereSnoc(b', x, p);
      WhereAppend(a, b', p);
      assert Where(a + b, p) == Where(a, p) + Where(b', p) + tail;
    }
  }

  /** Appending one entry to a sequence appends it to the filtered sequence iff it passes. */
  lemma WhereSnoc(a: seq<Entry>, x: Entry, p: Entry -> bool)
    ensures Where(a + [x], p) == Where(a, p) + (if p(x) then [x] else [])
  {
    assert (a + [x])[..|a + [x]| - 1] == a;
  }

  lemma {:induction false} TotalAppend(a: seq<Entry>, b: seq<Entry>)
    ensures Total(a + b) == Total(a) + Total(b)
    decreases |b|
  {
    if b == [] {
      assert a + b == a;
    } else {
      var b' := b[..|b| - 1];
      assert (a + b)[..|a + b| - 1] == a + b';
      TotalAppend(a, b');
    }
  }

  lemma TotalSnoc(a: seq<Entry>, x: Entry)
    ensures Total(a + [x]) == Total(a) + x.amount
  {
    assert (a + [x])[..|a + [x]| - 1] == a;
  }

  /** Filtering with two predicates that agree on `s` gives the same result. */
  lemma {:induction false} WhereCongruent(s: seq<Entry>, p: Entry -> bool, q: Entry -> bool)
    requires forall e :: e in s ==> p(e) == q(e)
    ensures Where(s, p) == Where(s, q)
    decreases |s|
  {
    if s != [] {
      WhereCongruent(s[..|s| - 1], p, q);
    }
  }

  /** Filtering twice is filtering once by the conjunction. */
  lemma {:induction false} WhereWhere(s: seq<Entry>, p: Entry -> bool, q: Entry -> bool, pq: Entry -> bool)
    requires forall e :: e in s ==> pq(e) == (p(e) && q(e))
    ensures Where(Where(s, p), q) == Where(s, pq)
    decreases |s|
  {
    if s != [] {
      var s' := s[..|s| - 1];
      var x := s[|s| - 1];
      assert s == s' + [x];
      assert forall e :: e in s' ==> e in s;
      WhereWhere(s', p, q, pq);
      WhereSnoc(s', x, p);
      WhereSnoc(s', x, pq);
      assert pq(x) == (p(x) && q(x));
      if p(x) {
        WhereSnoc(Where(s', p), x, q);
      } else {
        assert Where(s, p) == Where(s', p);
        assert Where(s, pq) == Where(s', pq);
      }
    }
  }

  /** How often an entry occurs in a filtered sequence. */
  lemma {:induction false} WhereMultiplicity(s: seq<Entry>, p: Entry -> bool, e: Entry)
    ensures multiset(Where(s, p))[e] == if p(e) then multiset(s)[e] else 0
    decreases |s|
  {
    if s != [] {
      var s' := s[..|s| - 1];
      assert s == s' + [s[|s| - 1]];
      WhereMultiplicity(s', p, e);
    }
  }

  /** Filtering respects permutation: equal multisets filter to equal multisets. */
  lemma WherePermutation(a: seq<Entry>, b: seq<Entry>, p: Entry -> bool)
    requires multiset(a) == multiset(b)
    ensures multiset(Where(a, p)) == multiset(Where(b, p))
  {
    forall e ensures multiset(Where(a, p))[e] == multiset(Where(b, p))[e] {
      WhereMultiplicity(a, p, e);
      WhereMultiplicity(b, p, e);
    }
  }

  /** The sum of the amounts does not depend on the order of the entries. */
  lemma {:induction false} TotalPermutation(a: seq<Entry>, b: seq<Entry>)
    requires multiset(a) == multiset(b)
    ensures Total(a) == Total(b)
    decreases |a|
  {
    if a == [] {
      assert b == [] by {
        assert |multiset(b)| == |b|;
      }
    } else {
      var a' := a[..|a| - 1];
      var x := a[|a| - 1];
      assert a == a' + [x];
      assert x in multiset(b);
      var j :| 0 <= j < |b| && b[j] == x;
      var rest := b[..j] + b[j + 1..];
      assert b == b[..j] + [x] + b[j + 1..];
      assert multiset(b) == multiset(b[..j]) + multiset{x} + multiset(b[j + 1..]);
      assert multiset(rest) == multiset(b[..j]) + multiset(b[j + 1..]);
      assert multiset(a) == multiset(a') + multiset{x};
      assert multiset(a') == multiset(a) - multiset{x};
      assert multiset(rest) == multiset(b) - multiset{x};
      TotalPermutation(a', rest);
      TotalAppend(b[..j], b[j + 1..]);
      TotalAppend(b[..j] + [x], b[j + 1..]);
      TotalSnoc(b[..j], x);
      TotalSnoc(a', x);
    }
  }

  /** ASCII upper-case letters folded to lower case, as the `i` regex option does. */
  function LowerChar(c: char): char
  {
    if 'A' <= c <= 'Z' then (c as int + 32) as char else c
  }

  function Lower(s: string): (r: string)
    ensures |r| == |s|
    ensures forall i :: 0 <= i < |s| ==> r[i] == LowerChar(s[i])
  {
    seq(|s|, i requires 0 <= i < |s| => LowerChar(s[i]))
  }

  /** `needle` occurs in `hay` starting at position `i`. */
  predicate OccursAt(hay: string, needle: string, i: int)
  {
    0 <= i <= |hay| - |needle| && hay[i..i + |needle|] == needle
  }

  /** `needle` occurs in `hay` as a contiguous piece. */
  predicate Contains(hay: string, needle: string)
  {
    exists i :: 0 <= i <= |hay| - |needle| && OccursAt(hay, needle, i)
  }

  /**
   * `needle` occurs in `hay` when the case of letters is ignored; an exact
   * occurrence is one, and the empty needle occurs everywhere.
   */
  predicate ContainsIgnoringCase(hay: string, needle: string)
    ensures Contains(hay, needle) ==> ContainsIgnoringCase(hay, needle)
    ensures needle == "" ==> ContainsIgnoringCase(hay, needle)
  {
    LowerKeepsOccurrence(hay, needle);
    Contains(Lower(hay), Lower(needle))
  }

  /** Folding both sides to lower case keeps every occurrence. */
  lemma LowerKeepsOccurrence(hay: string, needle: string)
    ensures Contains(hay, needle) ==> Contains(Lower(hay), Lower(needle))
    ensures needle == "" ==> Contains(Lower(hay), Lower(needle))
  {
    if Contains(hay, needle) {
      var i :| 0 <= i <= |hay| - |needle| && OccursAt(hay, needle, i);
      assert forall k :: 0 <= k < |needle| ==> hay[i + k] == needle[k] by {
        forall k | 0 <= k < |needle| ensures hay[i + k] == needle[k] {
          assert hay[i..i + |needle|][k] == hay[i + k];
        }
      }
      assert Lower(hay)[i..i + |needle|] == Lower(needle);
      assert OccursAt(Lower(hay), Lower(needle), i);
    }
    if needle == "" {
      assert OccursAt(Lower(hay), Lower(needle), 0);
    }
  }
}
