/** The home page's selection: when the releases document arrives, the
    featured album is the first release of type `album` marked featured, in
    the order the document lists them; then the document's array is sorted
    in place by release date, newest first, and its first eight entries
    become the "latest singles". `localeCompare` on the ISO dates is modelled
    as ordinary string order, with a missing date read as the empty string. */
module Home {
  import opened Records
  import opened Text
  import opened Sorting
  import opened Content

  /** `r.releaseDate || ''`. */
  function DateKey(r: Release): string {
    OrElse(r.releaseDate, "")
  }

  /** The comparator `(a, b) => (b.releaseDate || '').localeCompare(a.releaseDate || '')`
      is negative, putting `a` first, exactly when `b`'s date sorts strictly before `a`'s. */
  predicate Newer(a: Release, b: Release) {
    StrLe(DateKey(b), DateKey(a)) && DateKey(b) != DateKey(a)
  }

  /** `a` is not ahead of `b` exactly when `a`'s date sorts at or before `b`'s. */
  lemma NotNewerIsLe(a: Release, b: Release)
    ensures !Newer(a, b) <==> StrLe(DateKey(a), DateKey(b))
  {
    StrLeTotal(DateKey(a), DateKey(b));
    StrLeReflexive(DateKey(a));
    if StrLe(DateKey(a), DateKey(b)) && StrLe(DateKey(b), DateKey(a)) {
      StrLeAntisymmetric(DateKey(a), DateKey(b));
    }
  }

  /** The comparator is a strict weak order, so the built-in stable sort has
      a well-defined result. */
  lemma NewerOrder()
    ensures StrictWeakOrder(Newer)
  {
    forall a: Release, b: Release
      ensures Newer(a, b) ==> !Newer(b, a)
    {
      NotNewerIsLe(b, a);
      StrLeReflexive(DateKey(a));
      if StrLe(DateKey(a), DateKey(b)) && StrLe(DateKey(b), DateKey(a)) {
        StrLeAntisymmetric(DateKey(a), DateKey(b));
      }
    }
    forall a: Release, b: Release, c: Release
      ensures !Newer(a, b) && !Newer(b, c) ==> !Newer(a, c)
    {
      NotNewerIsLe(a, b);
      NotNewerIsLe(b, c);
      NotNewerIsLe(a, c);
      if StrLe(DateKey(a), DateKey(b)) && StrLe(DateKey(b), DateKey(c)) {
        StrLeTransitive(DateKey(a), DateKey(b), DateKey(c));
      }
    }
  }

  /** `r.type === 'album' && r.featured`. */
  predicate IsFeaturedAlbum(r: Release) {
    r.kind == Some("album") && r.featured
  }

  /** The search behind `find`, from index `i` on: the position of the first featured album. */
  function FeaturedFrom(rs: seq<Release>, i: nat): (k: Option<nat>)
    requires i <= |rs|
    ensures k.Some? ==> i <= k.value < |rs| && IsFeaturedAlbum(rs[k.value])
    ensures k.Some? ==> forall j :: i <= j < k.value ==> !IsFeaturedAlbum(rs[j])
    ensures k.None? ==> forall j :: i <= j < |rs| ==> !IsFeaturedAlbum(rs[j])
    decreases |rs| - i
  {
    if i == |rs| then None
    else if IsFeaturedAlbum(rs[i]) then Some(i)
    else FeaturedFrom(rs, i + 1)
  }

  /** `releases.find(...)`: the first featured album, or `undefined`. */
  function FirstFeatured(rs: seq<Release>): (f: Option<Release>)
    ensures f.None? <==> forall i :: 0 <= i < |rs| ==> !IsFeaturedAlbum(rs[i])
    ensures f.Some? ==> exists i :: 0 <= i < |rs| && rs[i] == f.value && IsFeaturedAlbum(rs[i])
                                    && forall j :: 0 <= j < i ==> !IsFeaturedAlbum(rs[j])
  {
    match FeaturedFrom(rs, 0)
    case Some(k) => Some(rs[k])
    case None => None
  }

  /** `Math.min(8, n)`: the length of `.slice(0, 8)` on a list of `n`. */
  function TakeCount(n: nat): (k: nat)
    ensures k <= 8 && k <= n
    ensures k == 8 || k == n
  {
    if n < 8 then n else 8
  }

  /** `releases.sort(...).slice(0, 8)` as a value: the first eight of the
      date-sorted list. */
  function Latest(rs: seq<Release>): (ls: seq<Release>)
    ensures |ls| == TakeCount(|rs|)
  {
    InsertionSort(rs, Newer)[..TakeCount(|rs|)]
  }

  /** The latest singles run newest first. */
  lemma LatestNewestFirst(rs: seq<Release>)
    ensures forall i, j :: 0 <= i < j < |Latest(rs)| ==> StrLe(DateKey(Latest(rs)[j]), DateKey(Latest(rs)[i]))
  {
    NewerOrder();
    SortSorted(rs, Newer);
    var sorted := InsertionSort(rs, Newer);
    forall i, j | 0 <= i < j < |Latest(rs)|
      ensures StrLe(DateKey(Latest(rs)[j]), DateKey(Latest(rs)[i]))
    {
      assert Latest(rs)[i] == sorted[i] && Latest(rs)[j] == sorted[j];
      NotNewerIsLe(sorted[j], sorted[i]);
    }
  }

  /** The latest singles are taken from the releases, each at most as often as it occurs. */
  lemma LatestFromReleases(rs: seq<Release>)
    ensures multiset(Latest(rs)) <= multiset(rs)
  {
    var sorted := InsertionSort(rs, Newer);
    SortPermutes(rs, Newer);
    var k := TakeCount(|rs|);
    assert sorted == sorted[..k] + sorted[k..];
    assert multiset(sorted) == multiset(sorted[..k]) + multiset(sorted[k..]);
  }

  /** No release left out of the latest singles is newer than any of them. */
  lemma LatestAreNewest(rs: seq<Release>, x: Release, i: nat)
    requires x in rs && x !in Latest(rs) && i < |Latest(rs)|
    ensures StrLe(DateKey(x), DateKey(Latest(rs)[i]))
  {
    NewerOrder();
    SortSorted(rs, Newer);
    SortPermutes(rs, Newer);
    var sorted := InsertionSort(rs, Newer);
    assert x in multiset(sorted);
    var rest := sorted[|Latest(rs)|..];
    assert sorted == Latest(rs) + rest;
    assert x in rest;
    var r :| 0 <= r < |rest| && rest[r] == x;
    var j := |Latest(rs)| + r;
    assert sorted[j] == x;
    assert !Newer(sorted[j], sorted[i]);
    NotNewerIsLe(sorted[j], sorted[i]);
    assert Latest(rs)[i] == sorted[i];
  }

  /** Releases with the same date keep their order in the document. */
  lemma SameDateKeepsOrder(rs: seq<Release>, z: Release)
    ensures Ties(InsertionSort(rs, Newer), z, Newer) == Ties(rs, z, Newer)
  {
    NewerOrder();
    SortStable(rs, z, Newer);
  }

  /** Two releases tie exactly when their dates are equal. */
  lemma TieIsSameDate(a: Release, b: Release)
    ensures Tie(a, b, Newer) <==> DateKey(a) == DateKey(b)
  {
    NotNewerIsLe(a, b);
    NotNewerIsLe(b, a);
    StrLeReflexive(DateKey(a));
    if StrLe(DateKey(a), DateKey(b)) && StrLe(DateKey(b), DateKey(a)) {
      StrLeAntisymmetric(DateKey(a), DateKey(b));
    }
  }

  /** The arrays a document lends to the page for sorting. */
  function ArrayOf(data: Option<Doc>): set<object> {
    if data.Some? && data.value.releases.Some? then {data.value.releases.value} else {}
  }

  /** The home page component: the subscription callback sets `featured`
      and `singles`, and sorts the document's array as a side effect. */
  class HomeComponent {
    var featured: Option<Release>
    var singles: seq<Release>

    constructor ()
      ensures featured.None? && singles == []
    {
      featured := None;
      singles := [];
    }

    /** The callback for one emitted document. A `null` document makes
        `data.releases` throw, and nothing changes. */
    method OnReleases(data: Option<Doc>)
      modifies this, ArrayOf(data)
      ensures data.None? ==> featured == old(featured) && singles == old(singles)
      ensures data.Some? && data.value.releases.None? ==> featured.None? && singles == []
      ensures data.Some? && data.value.releases.Some? ==>
        var a := data.value.releases.value;
        && featured == FirstFeatured(old(a[..]))
        && a[..] == InsertionSort(old(a[..]), Newer)
        && singles == Latest(old(a[..]))
    {
      if data.None? {
        return;
      }
      match data.value.releases
      case None =>
        featured := FirstFeatured([]);
        singles := [];
      case Some(releases) =>
        featured := FirstFeatured(releases[..]);
        SortInPlace(releases, Newer);
        singles := releases[..TakeCount(releases.Length)];
    }
  }

  /** A document built by the API path has no `releases`: the page then shows
      no featured album and no singles. */
  method ApiDocShowsNothing(api: Option<ApiBody>) returns (featured: Option<Release>, singles: seq<Release>)
    requires Normalise(api).Loaded?
    ensures featured.None? && singles == []
  {
    var page := new HomeComponent();
    page.OnReleases(Some(Normalise(api).value));
    featured, singles := page.featured, page.singles;
  }
}
