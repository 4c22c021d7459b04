/**
  Collections: unique slugs, the product order, and the operations that keep both
  (src/modules/collections/collections.service.ts). Collections are only ever soft-deleted, so a
  collection's position is its id.
 */
module Collections {
  import opened Prelude
  import Decimal
  import opened Slugs

  datatype Link = Link(productId: string, sortOrder: int)

  datatype Collection = Collection(title: string, slug: string, isActive: bool, products: seq<Link>)

  datatype CollectionError = NotFound | UnknownProducts(missing: seq<string>) | DuplicateProduct

  // ---------- the search for a free slug ----------

  /** The candidates in the order they are tried: base, base-1, base-2, ... */
  function Candidate(base: string, k: nat): string {
    if k == 0 then base else base + "-" + Decimal.Show(k)
  }

  lemma CandidatesDiffer(base: string, j: nat, k: nat)
    requires Candidate(base, j) == Candidate(base, k)
    ensures j == k
  {
    if j > 0 && k > 0 {
      assert Candidate(base, j)[|base| + 1..] == Decimal.Show(j) && Candidate(base, k)[|base| + 1..] == Decimal.Show(k);
      Decimal.ReadShow(j);
      Decimal.ReadShow(k);
    }
  }

  /**
    A numbered candidate is a slug in normal form exactly if the plain one is and does not end with a dash;
    otherwise two dashes meet.
   */
  lemma NumberedIsSlugIff(base: string, k: nat)
    requires IsSlug(base) && k > 0
    ensures Candidate(base, k) == base + "-" + Decimal.Show(k)
    ensures IsSlug(Candidate(base, k)) <==> base == "" || base[|base| - 1] != '-'
  {
    var n, digits := |base|, Decimal.Show(k);
    var c := base + "-" + digits;
    assert forall i :: n < i < |c| ==> c[i] == digits[i - n - 1] && Decimal.IsDigit(c[i]);
    assert forall i :: 0 <= i < n ==> c[i] == base[i];
    if base == "" || base[n - 1] != '-' {
      forall i | 0 <= i < |c| ensures !DashPairAt(c, i) {
        if i < n { assert !DashPairAt(base, i); }
      }
    } else {
      assert DashPairAt(c, n - 1);
    }
  }

  /** `findFirst` by slug, leaving out the collection being updated. */
  predicate Taken(rows: seq<Collection>, slug: string, ignore: Option<nat>) {
    exists i :: 0 <= i < |rows| && ignore != Some(i) && rows[i].slug == slug
  }

  /** The slugs of the other collections. */
  ghost function SlugSet(rows: seq<Collection>, ignore: Option<nat>): set<string> {
    if rows == [] then {}
    else
      var n := |rows| - 1;
      SlugSet(rows[..n], ignore) + if ignore == Some(n) then {} else {rows[n].slug}
  }

  /** How many other collections there are. */
  function Others(rows: seq<Collection>, ignore: Option<nat>): nat {
    if ignore.Some? && ignore.value < |rows| then |rows| - 1 else |rows|
  }

  lemma TakenByLast(rows: seq<Collection>, slug: string, ignore: Option<nat>)
    requires rows != []
    ensures var n := |rows| - 1;
            Taken(rows, slug, ignore) <==> Taken(rows[..n], slug, ignore) || (ignore != Some(n) && rows[n].slug == slug)
  {
    var n := |rows| - 1;
    if Taken(rows[..n], slug, ignore) {
      var i :| 0 <= i < n && ignore != Some(i) && rows[..n][i].slug == slug;
      assert rows[i].slug == slug;
    }
    if Taken(rows, slug, ignore) {
      var i :| 0 <= i < |rows| && ignore != Some(i) && rows[i].slug == slug;
      assert i < n ==> rows[..n][i].slug == slug;
    }
  }

  lemma {:induction false} SlugSetIsTaken(rows: seq<Collection>, slug: string, ignore: Option<nat>)
    ensures slug in SlugSet(rows, ignore) <==> Taken(rows, slug, ignore)
  {
    if rows != [] {
      SlugSetIsTaken(rows[..|rows| - 1], slug, ignore);
      TakenByLast(rows, slug, ignore);
    }
  }

  lemma {:induction false} SlugSetSize(rows: seq<Collection>, ignore: Option<nat>)
    ensures |SlugSet(rows, ignore)| <= Others(rows, ignore)
  {
    if rows != [] { SlugSetSize(rows[..|rows| - 1], ignore); }
  }

  ghost function FirstCandidates(base: string, k: nat): set<string> {
    if k == 0 then {} else FirstCandidates(base, k - 1) + {Candidate(base, k - 1)}
  }

  lemma {:induction false} FirstCandidatesSize(base: string, k: nat)
    ensures |FirstCandidates(base, k)| == k
    ensures forall c :: c in FirstCandidates(base, k) ==> exists j :: 0 <= j < k && c == Candidate(base, j)
  {
    if k > 0 {
      FirstCandidatesSize(base, k - 1);
      if Candidate(base, k - 1) in FirstCandidates(base, k - 1) {
        var j :| 0 <= j < k - 1 && Candidate(base, k - 1) == Candidate(base, j);
        CandidatesDiffer(base, j, k - 1);
      }
      forall c | c in FirstCandidates(base, k) ensures exists j :: 0 <= j < k && c == Candidate(base, j) {
        if c in FirstCandidates(base, k - 1) {
          var j :| 0 <= j < k - 1 && c == Candidate(base, j);
        }
      }
    }
  }

  ghost predicate AllTaken(rows: seq<Collection>, base: string, ignore: Option<nat>, k: nat) {
    forall j :: 0 <= j < k ==> Taken(rows, Candidate(base, j), ignore)
  }

  /** Pigeonhole: no more candidates can be taken than there are other collections. */
  lemma TakenCandidatesFit(rows: seq<Collection>, base: string, ignore: Option<nat>, k: nat)
    requires AllTaken(rows, base, ignore, k)
    ensures k <= Others(rows, ignore)
  {
    FirstCandidatesSize(base, k);
    SlugSetSize(rows, ignore);
    var mine, all := FirstCandidates(base, k), SlugSet(rows, ignore);
    forall c | c in mine ensures c in all {
      SlugSetIsTaken(rows, c, ignore);
    }
    assert all == mine + (all - mine);
  }

  /** The first free candidate from `k` on. */
  function FirstFree(rows: seq<Collection>, base: string, ignore: Option<nat>, k: nat): (slug: string)
    requires AllTaken(rows, base, ignore, k)
    ensures !Taken(rows, slug, ignore)
    ensures exists m :: k <= m <= Others(rows, ignore) && slug == Candidate(base, m) && AllTaken(rows, base, ignore, m)
    decreases Others(rows, ignore) - k
  {
    TakenCandidatesFit(rows, base, ignore, k);
    if !Taken(rows, Candidate(base, k), ignore) then Candidate(base, k)
    else
      assert AllTaken(rows, base, ignore, k + 1);
      TakenCandidatesFit(rows, base, ignore, k + 1);
      FirstFree(rows, base, ignore, k + 1)
  }

  function UniqueSlug(rows: seq<Collection>, base: string, ignore: Option<nat>): string {
    FirstFree(rows, base, ignore, 0)
  }

  /** The answer is the one free candidate all of whose predecessors are taken; base itself if that is free. */
  lemma UniqueSlugMeaning(rows: seq<Collection>, base: string, ignore: Option<nat>, m: nat)
    ensures UniqueSlug(rows, base, ignore) == Candidate(base, m) <==>
            !Taken(rows, Candidate(base, m), ignore) && AllTaken(rows, base, ignore, m)
  {
    var slug := UniqueSlug(rows, base, ignore);
    var k :| 0 <= k <= Others(rows, ignore) && slug == Candidate(base, k) && AllTaken(rows, base, ignore, k);
    if slug == Candidate(base, m) {
      CandidatesDiffer(base, k, m);
    }
    if !Taken(rows, Candidate(base, m), ignore) && AllTaken(rows, base, ignore, m) {
      assert k <= m && m <= k;
    }
  }

  // ---------- do all products exist? ----------

  /** `Array.from(new Set(ids))`: first occurrences, in order. */
  function Dedupe(ids: seq<string>): (r: seq<string>)
    ensures forall id :: id in r <==> id in ids
    ensures forall i, j :: 0 <= i < j < |r| ==> r[i] != r[j]
  {
    if ids == [] then []
    else
      var n := |ids| - 1;
      var front := Dedupe(ids[..n]);
      assert ids == ids[..n] + [ids[n]];
      if ids[n] in front then front else front + [ids[n]]
  }

  function Missing(ids: seq<string>, products: set<string>): (r: seq<string>)
    ensures forall id :: id in r <==> id in ids && id !in products
  {
    if ids == [] then []
    else
      assert ids == [ids[0]] + ids[1..];
      (if ids[0] in products then [] else [ids[0]]) + Missing(ids[1..], products)
  }

  /** `ensureProductsExist`: compare the number of rows found with the number of ids asked for. */
  function EnsureProductsExist(ids: seq<string>, products: set<string>): Option<CollectionError> {
    var uniqueIds := Dedupe(ids);
    var found := set p | p in products && p in uniqueIds;
    if |found| != |uniqueIds| then Some(UnknownProducts(Missing(uniqueIds, products))) else None
  }

  lemma {:induction false} DistinctSize(ids: seq<string>)
    requires forall i, j :: 0 <= i < j < |ids| ==> ids[i] != ids[j]
    ensures |set id | id in ids| == |ids|
  {
    if ids != [] {
      var n := |ids| - 1;
      DistinctSize(ids[..n]);
      assert (set id | id in ids) == (set id | id in ids[..n]) + {ids[n]};
    }
  }

  /** Counting decides it: accepted exactly when every id exists, and otherwise the missing ones are named. */
  lemma EnsureProductsExistMeaning(ids: seq<string>, products: set<string>)
    ensures var r := EnsureProductsExist(ids, products);
            && (r.None? <==> forall id :: id in ids ==> id in products)
            && (r.Some? ==> r.value.UnknownProducts? &&
                            forall id :: id in r.value.missing <==> id in ids && id !in products)
  {
    var uniqueIds := Dedupe(ids);
    var found, asked := (set p | p in products && p in uniqueIds), set id | id in uniqueIds;
    DistinctSize(uniqueIds);
    assert found <= asked;
    if |found| == |asked| {
      assert asked == found + (asked - found);
      assert asked - found == {};
      assert forall id :: id in ids ==> id in asked && id in found;
    }
    if forall id :: id in ids ==> id in products {
      assert asked == found;
    }
  }

  // ---------- the product order ----------

  predicate DistinctIds(ids: seq<string>) {
    forall i, j :: 0 <= i < j < |ids| ==> ids[i] != ids[j]
  }

  /** `productIds.map((productId, index) => ...)`. */
  function Linked(ids: seq<string>): (r: seq<Link>)
    ensures |r| == |ids| && forall i :: 0 <= i < |ids| ==> r[i] == Link(ids[i], i)
  {
    seq(|ids|, (i: nat) requires i < |ids| => Link(ids[i], i))
  }

  /** Any answer the database may give to `orderBy: { sortOrder: 'asc' }`. */
  ghost predicate SortedAnswer(answer: seq<Link>, links: seq<Link>) {
    multiset(answer) == multiset(links) &&
    forall i, j :: 0 <= i < j < |answer| ==> answer[i].sortOrder <= answer[j].sortOrder
  }

  ghost predicate StrictlySorted(links: seq<Link>) {
    forall i, j :: 0 <= i < j < |links| ==> links[i].sortOrder < links[j].sortOrder
  }

  lemma HeadsAgree(answer: seq<Link>, links: seq<Link>)
    requires SortedAnswer(answer, links) && StrictlySorted(links) && links != []
    ensures answer != [] && answer[0] == links[0]
  {
    assert |multiset(answer)| == |multiset(links)|;
    assert links[0] in multiset(answer) && answer[0] in multiset(links);
    var i :| 0 <= i < |answer| && answer[i] == links[0];
    var j :| 0 <= j < |links| && links[j] == answer[0];
  }

  lemma TailsSorted(answer: seq<Link>, links: seq<Link>)
    requires SortedAnswer(answer, links) && StrictlySorted(links) && links != []
    ensures answer != [] && answer[0] == links[0] && SortedAnswer(answer[1..], links[1..])
  {
    HeadsAgree(answer, links);
    assert answer == [answer[0]] + answer[1..] && links == [links[0]] + links[1..];
    assert multiset(answer[1..]) == multiset(answer) - multiset{answer[0]};
    assert multiset(links[1..]) == multiset(links) - multiset{links[0]};
  }

  lemma {:induction false} SortedAnswerIsUnique(answer: seq<Link>, links: seq<Link>)
    requires SortedAnswer(answer, links) && StrictlySorted(links)
    ensures answer == links
  {
    if links == [] {
      assert |multiset(answer)| == |multiset(links)|;
    } else {
      TailsSorted(answer, links);
      SortedAnswerIsUnique(answer[1..], links[1..]);
      assert answer == [answer[0]] + answer[1..] && links == [links[0]] + links[1..];
    }
  }

  /** Round trip: rows stored with their index come back in exactly the order the ids were given. */
  lemma StoredOrderIsReadBack(ids: seq<string>, answer: seq<Link>)
    requires SortedAnswer(answer, Linked(ids))
    ensures |answer| == |ids| && forall i :: 0 <= i < |ids| ==> answer[i].productId == ids[i]
  {
    SortedAnswerIsUnique(answer, Linked(ids));
  }

  // ---------- the operations as specifications ----------

  datatype Tables = Tables(rows: seq<Collection>, products: set<string>)

  function CreateCollection(t: Tables, u: Unicode, title: string, ids: seq<string>): (Tables, Option<CollectionError>) {
    var slug := UniqueSlug(t.rows, Slugify(u, title), None);
    var missing := EnsureProductsExist(ids, t.products);
    if missing.Some? then (t, missing)
    else if !DistinctIds(ids) then (t, Some(DuplicateProduct))
    else (t.(rows := t.rows + [Collection(title, slug, true, Linked(ids))]), None)
  }

  function NewSlug(t: Tables, u: Unicode, id: nat, title: Option<string>): string
    requires id < |t.rows|
  {
    if title.Some? && title.value != "" && title.value != t.rows[id].title
    then UniqueSlug(t.rows, Slugify(u, title.value), Some(id)) else t.rows[id].slug
  }

  /** All or nothing: the transaction replaces the links, if ids are given, and rewrites the row. */
  function UpdateCollection(t: Tables, u: Unicode, id: nat, title: Option<string>, ids: Option<seq<string>>,
                            isActive: Option<bool>): (Tables, Option<CollectionError>)
  {
    if id >= |t.rows| then (t, Some(NotFound))
    else
      var existing := t.rows[id];
      var missing := if ids.Some? && ids.value != [] then EnsureProductsExist(ids.value, t.products) else None;
      if missing.Some? then (t, missing)
      else if ids.Some? && !DistinctIds(ids.value) then (t, Some(DuplicateProduct))
      else
        var updated := Collection(if title.Some? then title.value else existing.title,
                                  NewSlug(t, u, id, title),
                                  if isActive.Some? then isActive.value else existing.isActive,
                                  if ids.Some? then Linked(ids.value) else existing.products);
        (t.(rows := t.rows[id := updated]), None)
  }

  function SoftDelete(t: Tables, id: nat): (Tables, Option<CollectionError>) {
    if id >= |t.rows| then (t, Some(NotFound))
    else (t.(rows := t.rows[id := t.rows[id].(isActive := false)]), None)
  }

  /** What a reader of an active collection gets: its rows in an order sorted by `sortOrder`. */
  ghost predicate ReadBack(t: Tables, slug: string, answer: seq<Link>) {
    exists i :: 0 <= i < |t.rows| && t.rows[i].slug == slug && t.rows[i].isActive && SortedAnswer(answer, t.rows[i].products)
  }

  ghost predicate SlugsDistinct(rows: seq<Collection>) {
    forall i, j :: 0 <= i < j < |rows| ==> rows[i].slug != rows[j].slug
  }

  /**
    Creation succeeds exactly for distinct existing products; a reader of the new slug then gets an answer,
    and whatever answer it is, it has them in the order given, from the new collection and no other.
   */
  lemma CreateThenRead(t: Tables, u: Unicode, title: string, ids: seq<string>, answer: seq<Link>)
    requires SlugsDistinct(t.rows)
    ensures var (t', error) := CreateCollection(t, u, title, ids);
            && (error.None? <==> DistinctIds(ids) && forall id :: id in ids ==> id in t.products)
            && (error.Some? ==> t' == t)
            && (error.None? ==> ReadBack(t', t'.rows[|t.rows|].slug, Linked(ids)))
            && (error.None? && ReadBack(t', t'.rows[|t.rows|].slug, answer) ==>
                |answer| == |ids| && forall i :: 0 <= i < |ids| ==> answer[i].productId == ids[i])
  {
    EnsureProductsExistMeaning(ids, t.products);
    var (t', error) := CreateCollection(t, u, title, ids);
    if error.None? {
      var added := t'.rows[|t.rows|];
      assert added.isActive && SortedAnswer(Linked(ids), added.products);
    }
    if error.None? && ReadBack(t', t'.rows[|t.rows|].slug, answer) {
      CreateKeepsSlugsDistinct(t, u, title, ids);
      StoredOrderIsReadBack(ids, answer);
    }
  }

  /** The same for an update; without ids the stored order stays as it was, in every case of the others too. */
  lemma UpdateThenRead(t: Tables, u: Unicode, id: nat, title: Option<string>, ids: Option<seq<string>>,
                       isActive: Option<bool>, answer: seq<Link>)
    requires id < |t.rows|
    ensures var (t', error) := UpdateCollection(t, u, id, title, ids, isActive);
            && (error.None? <==> ids.None? || (DistinctIds(ids.value) && forall p :: p in ids.value ==> p in t.products))
            && (error.Some? ==> t' == t)
            && |t'.rows| == |t.rows| && (forall i :: 0 <= i < |t.rows| && i != id ==> t'.rows[i] == t.rows[i])
            && (ids.None? ==> t'.rows[id].products == t.rows[id].products)
            && (error.None? && ids.Some? && SortedAnswer(answer, t'.rows[id].products) ==>
                |answer| == |ids.value| && forall i :: 0 <= i < |ids.value| ==> answer[i].productId == ids.value[i])
  {
    if ids.Some? {
      EnsureProductsExistMeaning(ids.value, t.products);
      if SortedAnswer(answer, Linked(ids.value)) {
        StoredOrderIsReadBack(ids.value, answer);
      }
    }
  }

  /** A reader of an updated active collection, looking it up by its slug, gets the new order. */
  lemma UpdateThenReadBack(t: Tables, u: Unicode, id: nat, title: Option<string>, ids: seq<string>,
                           isActive: Option<bool>, answer: seq<Link>)
    requires SlugsDistinct(t.rows) && id < |t.rows|
    requires var (t', error) := UpdateCollection(t, u, id, title, Some(ids), isActive);
             error.None? && t'.rows[id].isActive
    ensures var (t', _) := UpdateCollection(t, u, id, title, Some(ids), isActive);
            && ReadBack(t', t'.rows[id].slug, Linked(ids))
            && (ReadBack(t', t'.rows[id].slug, answer) ==>
                |answer| == |ids| && forall i :: 0 <= i < |ids| ==> answer[i].productId == ids[i])
  {
    var t' := UpdateCollection(t, u, id, title, Some(ids), isActive).0;
    UpdateKeepsSlugsDistinct(t, u, id, title, Some(ids), isActive);
    assert SortedAnswer(Linked(ids), t'.rows[id].products);
    if ReadBack(t', t'.rows[id].slug, answer) {
      StoredOrderIsReadBack(ids, answer);
    }
  }

  // ---------- outcomes, column by column ----------

  /** The first candidate that no other collection has. */
  ghost predicate IsFirstFree(rows: seq<Collection>, base: string, ignore: Option<nat>, slug: string) {
    exists m: nat ::
      && slug == Candidate(base, m) && m <= Others(rows, ignore)
      && (forall i :: 0 <= i < |rows| && ignore != Some(i) ==> rows[i].slug != slug)
      && AllTaken(rows, base, ignore, m)
  }

  lemma UniqueSlugIsFirstFree(rows: seq<Collection>, base: string, ignore: Option<nat>)
    ensures IsFirstFree(rows, base, ignore, UniqueSlug(rows, base, ignore))
  {
    var slug := UniqueSlug(rows, base, ignore);
    var m :| 0 <= m <= Others(rows, ignore) && slug == Candidate(base, m) && AllTaken(rows, base, ignore, m);
    assert forall i :: 0 <= i < |rows| && ignore != Some(i) ==> rows[i].slug != slug;
  }

  ghost predicate IsOrderOf(links: seq<Link>, ids: seq<string>) {
    |links| == |ids| && forall i :: 0 <= i < |ids| ==> links[i].productId == ids[i] && links[i].sortOrder == i
  }

  /** Why a product list is refused: products that do not exist are named; else one is listed twice. */
  ghost predicate ListRefusal(ids: seq<string>, products: set<string>, error: Option<CollectionError>) {
    if exists id :: id in ids && id !in products then
      error.Some? && error.value.UnknownProducts? &&
      forall id :: id in error.value.missing <==> id in ids && id !in products
    else error == if DistinctIds(ids) then None else Some(DuplicateProduct)
  }

  /** A creation adds one active collection with the title, its first free slug and the products in order. */
  lemma CreateEffect(t: Tables, u: Unicode, title: string, ids: seq<string>)
    ensures var (t', error) := CreateCollection(t, u, title, ids);
            && ListRefusal(ids, t.products, error)
            && t'.products == t.products
            && (error.Some? ==> t' == t)
            && (error.None? ==>
                && |t'.rows| == |t.rows| + 1 && t'.rows[..|t.rows|] == t.rows
                && var added := t'.rows[|t.rows|];
                && added.title == title && added.isActive && IsOrderOf(added.products, ids)
                && IsFirstFree(t.rows, Slugify(u, title), None, added.slug))
  {
    EnsureProductsExistMeaning(ids, t.products);
    UniqueSlugIsFirstFree(t.rows, Slugify(u, title), None);
  }

  /**
    An update rewrites what it is given and keeps the rest; a title that is new and not empty gives a new slug,
    the first one that no other collection has.
   */
  lemma UpdateEffect(t: Tables, u: Unicode, id: nat, title: Option<string>, ids: Option<seq<string>>, isActive: Option<bool>)
    ensures var (t', error) := UpdateCollection(t, u, id, title, ids, isActive);
            && (error == Some(NotFound) <==> id >= |t.rows|)
            && (id < |t.rows| ==> if ids.Some? then ListRefusal(ids.value, t.products, error) else error.None?)
            && t'.products == t.products
            && (error.Some? ==> t' == t)
            && (error.None? ==>
                && |t'.rows| == |t.rows| && (forall i :: 0 <= i < |t.rows| && i != id ==> t'.rows[i] == t.rows[i])
                && var before, after := t.rows[id], t'.rows[id];
                && (if title.Some? then after.title == title.value else after.title == before.title)
                && (if isActive.Some? then after.isActive == isActive.value else after.isActive == before.isActive)
                && (if ids.Some? then IsOrderOf(after.products, ids.value) else after.products == before.products)
                && (if title.Some? && title.value != "" && title.value != before.title
                    then IsFirstFree(t.rows, Slugify(u, title.value), Some(id), after.slug)
                    else after.slug == before.slug))
  {
    if id < |t.rows| {
      if ids.Some? { EnsureProductsExistMeaning(ids.value, t.products); }
      if title.Some? { UniqueSlugIsFirstFree(t.rows, Slugify(u, title.value), Some(id)); }
    }
  }

  /** A deletion leaves a row that no reader gets an answer from; nothing else changes. */
  lemma DeleteMeaning(t: Tables, id: nat, answer: seq<Link>)
    requires SlugsDistinct(t.rows)
    ensures var (t', error) := SoftDelete(t, id);
            && (error.None? <==> id < |t.rows|) && (error.Some? ==> error == Some(NotFound) && t' == t)
            && (error.None? ==>
                && t'.products == t.products && |t'.rows| == |t.rows|
                && (forall i :: 0 <= i < |t.rows| && i != id ==> t'.rows[i] == t.rows[i])
                && t'.rows[id] == t.rows[id].(isActive := false)
                && !ReadBack(t', t.rows[id].slug, answer))
  {
  }

  // ---------- slugs stay distinct ----------

  lemma CreateKeepsSlugsDistinct(t: Tables, u: Unicode, title: string, ids: seq<string>)
    requires SlugsDistinct(t.rows)
    ensures SlugsDistinct(CreateCollection(t, u, title, ids).0.rows)
  {
    var slug := UniqueSlug(t.rows, Slugify(u, title), None);
    assert forall i :: 0 <= i < |t.rows| ==> t.rows[i].slug != slug;
  }

  lemma UpdateKeepsSlugsDistinct(t: Tables, u: Unicode, id: nat, title: Option<string>, ids: Option<seq<string>>,
                                 isActive: Option<bool>)
    requires SlugsDistinct(t.rows)
    ensures SlugsDistinct(UpdateCollection(t, u, id, title, ids, isActive).0.rows)
  {
    if id < |t.rows| {
      var slug := NewSlug(t, u, id, title);
      assert forall i :: 0 <= i < |t.rows| && i != id ==> t.rows[i].slug != slug;
    }
  }

  datatype Op =
    | Create(title: string, ids: seq<string>)
    | Update(id: nat, newTitle: Option<string>, newIds: Option<seq<string>>, isActive: Option<bool>)
    | Delete(id: nat)

  function Apply(t: Tables, u: Unicode, op: Op): Tables {
    match op
    case Create(title, ids) => CreateCollection(t, u, title, ids).0
    case Update(id, title, ids, isActive) => UpdateCollection(t, u, id, title, ids, isActive).0
    case Delete(id) => SoftDelete(t, id).0
  }

  ghost function Run(t: Tables, u: Unicode, ops: seq<Op>): Tables {
    Fold((s, op) => Apply(s, u, op), t, ops)
  }

  /** A slug in use is a slugified title, plain or numbered. */
  ghost predicate SlugFromTitle(u: Unicode, slug: string) {
    exists title: string, k: nat :: slug == Candidate(Slugify(u, title), k)
  }

  ghost predicate SlugsFromTitles(u: Unicode, rows: seq<Collection>) {
    forall i :: 0 <= i < |rows| ==> SlugFromTitle(u, rows[i].slug)
  }

  lemma UniqueSlugFromTitle(u: Unicode, rows: seq<Collection>, title: string, ignore: Option<nat>)
    ensures SlugFromTitle(u, UniqueSlug(rows, Slugify(u, title), ignore))
  {
    var k :| 0 <= k && UniqueSlug(rows, Slugify(u, title), ignore) == Candidate(Slugify(u, title), k);
  }

  lemma NewSlugFromTitle(t: Tables, u: Unicode, id: nat, title: Option<string>)
    requires id < |t.rows| && SlugFromTitle(u, t.rows[id].slug)
    ensures SlugFromTitle(u, NewSlug(t, u, id, title))
  {
    if title.Some? { UniqueSlugFromTitle(u, t.rows, title.value, Some(id)); }
  }

  lemma OpKeepsSlugsFromTitles(t: Tables, u: Unicode, op: Op)
    requires SlugsFromTitles(u, t.rows)
    ensures SlugsFromTitles(u, Apply(t, u, op).rows)
  {
    match op
    case Create(title, ids) => UniqueSlugFromTitle(u, t.rows, title, None);
    case Update(id, title, ids, isActive) =>
      if UpdateCollection(t, u, id, title, ids, isActive).1.None? {
        NewSlugFromTitle(t, u, id, title);
        var rows := UpdateCollection(t, u, id, title, ids, isActive).0.rows;
        assert rows[id].slug == NewSlug(t, u, id, title) && rows == t.rows[id := rows[id]];
      }
    case Delete(_) =>
  }

  lemma OpKeepsSlugsDistinct(t: Tables, u: Unicode, op: Op)
    requires SlugsDistinct(t.rows)
    ensures SlugsDistinct(Apply(t, u, op).rows)
  {
    match op
    case Create(title, ids) => CreateKeepsSlugsDistinct(t, u, title, ids);
    case Update(id, title, ids, isActive) => UpdateKeepsSlugsDistinct(t, u, id, title, ids, isActive);
    case Delete(_) =>
  }

  /**
    Every serial run of creations, updates and soft deletions keeps all slugs distinct, those of
    inactive collections included, an update that re-slugs past its own row included; and every slug
    stays one made from a title.
   */
  lemma {:induction false} SlugsStayDistinct(t: Tables, u: Unicode, ops: seq<Op>)
    requires t.rows == []
    ensures SlugsDistinct(Run(t, u, ops).rows) && SlugsFromTitles(u, Run(t, u, ops).rows)
  {
    if ops != [] {
      var n := |ops| - 1;
      SlugsStayDistinct(t, u, ops[..n]);
      OpKeepsSlugsDistinct(Run(t, u, ops[..n]), u, ops[n]);
      OpKeepsSlugsFromTitles(Run(t, u, ops[..n]), u, ops[n]);
    }
  }

  // ---------- the service in place ----------

  class CollectionsService {
    var rows: seq<Collection>
    var products: set<string>
    const unicode: Unicode

    constructor (unicode: Unicode, products: set<string>)
      ensures rows == [] && this.products == products && this.unicode == unicode
    {
      this.unicode := unicode;
      rows, this.products := [], products;
    }

    function Now(): Tables
      reads this
    {
      Tables(rows, products)
    }

    /** `generateUniqueSlug`: at most one probe more than there are other collections. */
    method GenerateUniqueSlug(title: string, ignore: Option<nat>) returns (slug: string, ghost probes: nat)
      ensures slug == UniqueSlug(rows, Slugify(unicode, title), ignore)
      ensures 1 <= probes <= Others(rows, ignore) + 1
      ensures slug == Candidate(Slugify(unicode, title), probes - 1)
    {
      var baseSlug := Slugify(unicode, title);
      slug := baseSlug;
      var counter := 1;
      var hasConflict := true;
      probes := 0;
      while hasConflict
        invariant counter >= 1 && probes == if hasConflict then counter - 1 else counter
        invariant slug == Candidate(baseSlug, counter - 1)
        invariant AllTaken(rows, baseSlug, ignore, counter - 1)
        invariant !hasConflict ==> !Taken(rows, slug, ignore)
        decreases hasConflict, Others(rows, ignore) + 1 - counter
      {
        var existing := Taken(rows, slug, ignore);
        probes := probes + 1;
        if !existing {
          hasConflict := false;
        } else {
          assert AllTaken(rows, baseSlug, ignore, counter);
          TakenCandidatesFit(rows, baseSlug, ignore, counter);
          slug := baseSlug + "-" + Decimal.Show(counter);
          counter := counter + 1;
        }
      }
      UniqueSlugMeaning(rows, baseSlug, ignore, counter - 1);
      TakenCandidatesFit(rows, baseSlug, ignore, counter - 1);
    }

    method Create(title: string, ids: seq<string>) returns (error: Option<CollectionError>)
      modifies this`rows
      ensures (Now(), error) == CreateCollection(old(Now()), unicode, title, ids)
    {
      var slug, _ := GenerateUniqueSlug(title, None);
      error := EnsureProductsExist(ids, products);
      if error.Some? {
        return;
      }
      if !DistinctIds(ids) {
        return Some(DuplicateProduct);
      }
      rows := rows + [Collection(title, slug, true, Linked(ids))];
    }

    method Update(id: nat, title: Option<string>, ids: Option<seq<string>>, isActive: Option<bool>)
      returns (error: Option<CollectionError>)
      modifies this`rows
      ensures (Now(), error) == UpdateCollection(old(Now()), unicode, id, title, ids, isActive)
    {
      if id >= |rows| {
        return Some(NotFound);
      }
      var existing := rows[id];
      var slug := existing.slug;
      if title.Some? && title.value != "" && title.value != existing.title {
        ghost var probes;
        slug, probes := GenerateUniqueSlug(title.value, Some(id));
      }
      if ids.Some? && ids.value != [] {
        error := EnsureProductsExist(ids.value, products);
        if error.Some? {
          return;
        }
      }
      var links := existing.products;
      if ids.Some? {
        if !DistinctIds(ids.value) {
          return Some(DuplicateProduct);
        }
        links := Linked(ids.value);
      }
      rows := rows[id := Collection(if title.Some? then title.value else existing.title, slug,
                                    if isActive.Some? then isActive.value else existing.isActive, links)];
      error := None;
    }

    method Delete(id: nat) returns (error: Option<CollectionError>)
      modifies this`rows
      ensures (Now(), error) == SoftDelete(old(Now()), id)
    {
      if id >= |rows| {
        return Some(NotFound);
      }
      rows := rows[id := rows[id].(isActive := false)];
      error := None;
    }
  }

  /** A run's operation as the service carries it out, each by its own method. */
  method Perform(service: CollectionsService, op: Op)
    modifies service
    ensures service.Now() == Apply(old(service.Now()), service.unicode, op)
  {
    match op
    case Create(title, ids) => var _ := service.Create(title, ids);
    case Update(id, title, ids, isActive) => var _ := service.Update(id, title, ids, isActive);
    case Delete(id) => var _ := service.Delete(id);
  }
}
