/** The rows that server and client exchange, and the client-side filter. */
module Model {
  type Id = string

  datatype Workspace = Workspace(id: Id, name: string, sortOrder: int, createdAt: int, updatedAt: int)

  datatype Session = Session(
    id: Id, workspaceId: Id, title: string, shell: string, cwd: string,
    sortOrder: int, createdAt: int, updatedAt: int)

  function OtherWorkspaces(id: Id): Workspace -> bool {
    (w: Workspace) => w.id != id
  }

  function OtherSessions(id: Id): Session -> bool {
    (x: Session) => x.id != id
  }

  function Filter<T>(xs: seq<T>, keep: T -> bool): seq<T> {
    if xs == [] then []
    else (if keep(xs[0]) then [xs[0]] else []) + Filter(xs[1..], keep)
  }

  lemma {:induction false} FilterMembers<T>(xs: seq<T>, keep: T -> bool)
    ensures |Filter(xs, keep)| <= |xs|
    ensures forall i | 0 <= i < |Filter(xs, keep)| :: Filter(xs, keep)[i] in xs && keep(Filter(xs, keep)[i])
    ensures forall i | 0 <= i < |xs| && keep(xs[i]) :: xs[i] in Filter(xs, keep)
  {
    if xs != [] {
      FilterMembers(xs[1..], keep);
      assert xs == [xs[0]] + xs[1..];
    }
  }

  function Map<T, U>(xs: seq<T>, f: T -> U): (r: seq<U>)
    ensures |r| == |xs| && forall i | 0 <= i < |xs| :: r[i] == f(xs[i])
  {
    seq(|xs|, i requires 0 <= i < |xs| => f(xs[i]))
  }

  ghost predicate Pairwise<T>(xs: seq<T>, rel: (T, T) -> bool) {
    forall i, j | 0 <= i < j < |xs| :: rel(xs[i], xs[j])
  }

  /** A filter keeps the order, so it keeps what holds between earlier and later elements. */
  lemma {:induction false} FilterPairwise<T>(xs: seq<T>, keep: T -> bool, rel: (T, T) -> bool)
    requires Pairwise(xs, rel)
    ensures Pairwise(Filter(xs, keep), rel)
  {
    if xs != [] {
      var rest := Filter(xs[1..], keep);
      FilterPairwise(xs[1..], keep, rel);
      FilterMembers(xs[1..], keep);
      forall j | 0 <= j < |rest|
        ensures rel(xs[0], rest[j])
      {
        assert rest[j] in xs[1..];
        var k :| 0 <= k < |xs[1..]| && xs[1..][k] == rest[j];
        assert xs[k + 1] == rest[j];
      }
    }
  }

  lemma {:induction false} FilterAll<T>(xs: seq<T>, keep: T -> bool)
    requires forall x <- xs :: keep(x)
    ensures Filter(xs, keep) == xs
  {
    if xs != [] {
      FilterAll(xs[1..], keep);
    }
  }

  lemma {:induction false} FilterAppend<T>(xs: seq<T>, ys: seq<T>, keep: T -> bool)
    ensures Filter(xs + ys, keep) == Filter(xs, keep) + Filter(ys, keep)
  {
    if xs == [] {
      assert xs + ys == ys;
    } else {
      FilterAppend(xs[1..], ys, keep);
      assert (xs + ys)[1..] == xs[1..] + ys;
      var first := if keep(xs[0]) then [xs[0]] else [];
      assert first + (Filter(xs[1..], keep) + Filter(ys, keep)) == (first + Filter(xs[1..], keep)) + Filter(ys, keep);
    }
  }

  /** Filtering after a map that changes neither membership nor the test is mapping after the filter. */
  lemma {:induction false} FilterMap<T>(xs: seq<T>, f: T -> T, keep: T -> bool)
    requires forall x <- xs :: keep(f(x)) == keep(x)
    ensures Filter(Map(xs, f), keep) == Map(Filter(xs, keep), f)
  {
    if xs != [] {
      FilterMap(xs[1..], f, keep);
      assert Map(xs, f)[1..] == Map(xs[1..], f);
      var first := if keep(xs[0]) then [xs[0]] else [];
      assert Map(first + Filter(xs[1..], keep), f) == Map(first, f) + Map(Filter(xs[1..], keep), f);
    }
  }

  function Both<T>(p: T -> bool, q: T -> bool): T -> bool {
    x => p(x) && q(x)
  }

  lemma {:induction false} FilterFilter<T>(xs: seq<T>, p: T -> bool, q: T -> bool)
    ensures Filter(Filter(xs, p), q) == Filter(xs, Both(p, q))
  {
    if xs != [] {
      FilterFilter(xs[1..], p, q);
      FilterAppend(if p(xs[0]) then [xs[0]] else [], Filter(xs[1..], p), q);
      assert Filter([xs[0]], q) == if q(xs[0]) then [xs[0]] else [];
    }
  }

  lemma {:induction false} FilterSame<T>(xs: seq<T>, p: T -> bool, q: T -> bool)
    requires forall x <- xs :: p(x) == q(x)
    ensures Filter(xs, p) == Filter(xs, q)
  {
    if xs != [] {
      FilterSame(xs[1..], p, q);
    }
  }
}
