/**
 * The link-list predicates shared by the auto-completion in src/App.tsx and
 * the link editor: the undirected "some link joins a and b" test and the
 * well-formedness it is meant to guarantee.
 */
module Links {
  import opened Types

  /** The link joins a and b, in either direction. */
  predicate Joins<T(==)>(l: Link<T>, a: T, b: T) {
    (l.source == a && l.target == b) || (l.source == b && l.target == a)
  }

  /** `links.some(link => joins a and b)`. */
  predicate Linked<T(==)>(links: seq<Link<T>>, a: T, b: T) {
    exists k :: 0 <= k < |links| && Joins(links[k], a, b)
  }

  predicate NoSelfLinks<T(==)>(links: seq<Link<T>>) {
    forall k :: 0 <= k < |links| ==> links[k].source != links[k].target
  }

  /** No two links join the same unordered pair. */
  predicate NoDuplicatePairs<T(==)>(links: seq<Link<T>>) {
    forall i, j :: 0 <= i < j < |links| ==> !Joins(links[j], links[i].source, links[i].target)
  }

  predicate WellFormed<T(==)>(links: seq<Link<T>>) {
    NoSelfLinks(links) && NoDuplicatePairs(links)
  }

  /** Joining is undirected. */
  lemma JoinsSymmetric<T>(l: Link<T>, a: T, b: T)
    ensures Joins(l, a, b) <==> Joins(l, b, a)
  {
  }

  /**
   * Appending a link keeps the list well formed exactly when the list was well
   * formed, the new link is no self-link and no link joins its endpoints yet.
   */
  lemma AppendWellFormed<T>(links: seq<Link<T>>, l: Link<T>)
    ensures WellFormed(links + [l]) <==>
      WellFormed(links) && l.source != l.target && !Linked(links, l.source, l.target)
  {
    var s := links + [l];
    assert s[..|links|] == links;
    if WellFormed(s) {
      assert s[|links|] == l;
      forall k | 0 <= k < |links|
        ensures !Joins(links[k], l.source, l.target)
      {
        assert !Joins(s[|links|], s[k].source, s[k].target);
      }
    }
  }

  /** No id occurs twice. */
  predicate UniqueIds<T(==)>(ids: seq<T>) {
    forall a, b :: 0 <= a < b < |ids| ==> ids[a] != ids[b]
  }

  /** Every link joins two ids of the list. */
  predicate Among<T(==)>(ids: seq<T>, links: seq<Link<T>>) {
    forall k :: 0 <= k < |links| ==> links[k].source in ids && links[k].target in ids
  }
}
