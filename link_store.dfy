/** An in-memory link store standing in for the persistence layer the resolvers call:
    a map from id to link and the next id to assign, with the `findMany`, `count`,
    `findUnique`, `create`, `update` and `delete` operations the resolvers use. */
module Store {
  import opened Wrappers
  import opened LinkModel
  import Sorting

  /** Every link is stored under its own id. */
  ghost predicate KeyedById(m: map<int, Link>)
  {
    forall id :: id in m ==> m[id].id == id
  }

  /** The links stored under ids `0 .. n-1`, in ascending id order. */
  /** The `skip` the store applies: the given value, or 0 when none is given. */
  function SkipOrZero(skip: Option<int>): (r: int)
    ensures skip.Some? ==> r == skip.value
    ensures skip.None? ==> r == 0
  {
    if skip.Some? then skip.value else 0
  }

  function RowsBelow(m: map<int, Link>, n: nat): seq<Link>
  {
    if n == 0 then []
    else RowsBelow(m, n - 1) + (if n - 1 in m then [m[n - 1]] else [])
  }

  /** The rows below `n` are exactly the links stored under ids `0 .. n-1`, by ascending id. */
  lemma {:induction false} RowsBelowContents(m: map<int, Link>, n: nat)
    requires KeyedById(m)
    ensures forall l :: l in RowsBelow(m, n) <==> 0 <= l.id < n && l.id in m && m[l.id] == l
    ensures AscendingIds(RowsBelow(m, n))
  {
    if n > 0 {
      RowsBelowContents(m, n - 1);
      var prev := RowsBelow(m, n - 1);
      if n - 1 in m {
        var r := prev + [m[n - 1]];
        assert RowsBelow(m, n) == r;
        forall i | 0 <= i < |prev| ensures r[i].id < n - 1 {
          assert prev[i] in prev;
        }
      }
    }
  }

  /** The ids below `n` whose links pass `w`. */
  ghost function MatchIdsBelow(m: map<int, Link>, n: nat, keep: Link -> bool): set<int>
  {
    set id | id in m && 0 <= id < n && keep(m[id])
  }

  /** Raising the bound by one adds id `n - 1` exactly when it holds a matching link. */
  lemma MatchIdsStep(m: map<int, Link>, n: nat, keep: Link -> bool)
    requires n > 0
    ensures MatchIdsBelow(m, n, keep) ==
              MatchIdsBelow(m, n - 1, keep) + (if n - 1 in m && keep(m[n - 1]) then {n - 1} else {})
    ensures n - 1 !in MatchIdsBelow(m, n - 1, keep)
  {
  }

  /** Raising the bound by one adds the link stored under `n - 1`, if any, at the end. */
  lemma RowsStep(m: map<int, Link>, n: nat, keep: Link -> bool)
    requires n > 0
    ensures Filter(RowsBelow(m, n), keep) ==
              Filter(RowsBelow(m, n - 1), keep) + (if n - 1 in m && keep(m[n - 1]) then [m[n - 1]] else [])
  {
    var prev := RowsBelow(m, n - 1);
    var rows := RowsBelow(m, n);
    if n - 1 in m {
      assert rows == prev + [m[n - 1]];
      assert rows[..|rows| - 1] == prev;
    } else {
      assert rows == prev;
    }
  }

  /** Filtering the rows keeps one row per matching id. */
  lemma {:induction false} FilterRowsCount(m: map<int, Link>, n: nat, keep: Link -> bool)
    ensures |Filter(RowsBelow(m, n), keep)| == |MatchIdsBelow(m, n, keep)|
  {
    if n == 0 {
      assert MatchIdsBelow(m, n, keep) == {};
    } else {
      FilterRowsCount(m, n - 1, keep);
      RowsStep(m, n, keep);
      MatchIdsStep(m, n, keep);
    }
  }

  class LinkStore {
    /** The stored links, keyed by id. */
    var links: map<int, Link>
    /** The id the next created link receives (ids start at 1, as an autoincrement column). */
    var nextId: nat
    /** The users links can be posted by. */
    const users: map<int, User>
    /** The ordering `orderBy` asks for: `compare(orderBy, a, b)` holds when a link with key `a`
        may come before one with key `b`. */
    const compare: (seq<LinkOrderByInput>, SortKey, SortKey) -> bool

    /** Ids are positive, below `nextId` and match the link they key; every poster exists. */
    ghost predicate Valid()
      reads this
    {
      && 1 <= nextId
      && KeyedById(links)
      && (forall id :: id in links ==> 1 <= id < nextId && links[id].postedBy in users)
    }

    constructor (users: map<int, User>, compare: (seq<LinkOrderByInput>, SortKey, SortKey) -> bool)
      ensures Valid()
      ensures links == map[] && nextId == 1
      ensures this.users == users && this.compare == compare
    {
      links := map[];
      nextId := 1;
      this.users := users;
      this.compare := compare;
    }

    /** All stored links in ascending id order, the order this model fixes when no ordering is asked for. */
    function Rows(): (r: seq<Link>)
      reads this
      requires Valid()
      ensures forall l :: l in r <==> l.id in links && links[l.id] == l
      ensures AscendingIds(r)
    {
      RowsBelowContents(links, nextId);
      RowsBelow(links, nextId)
    }

    /** The ids of the stored links that pass `w`. */
    ghost function MatchingIds(w: Where): set<int>
      reads this
    {
      set id | id in links && Satisfies(w, links[id], users)
    }

    /** `count({ where })`: how many stored links pass `w`. */
    function Count(w: Where): (n: nat)
      reads this
      requires Valid()
      ensures n == |MatchingIds(w)|
    {
      FilterRowsCount(links, nextId, Passes(w, users));
      assert MatchIdsBelow(links, nextId, Passes(w, users)) == MatchingIds(w);
      |Filter(Rows(), Passes(w, users))|
    }

    /** The comparison on links that `orderBy` names. */
    function Comparator(orderBy: seq<LinkOrderByInput>): (Link, Link) -> bool
    {
      (a: Link, b: Link) => compare(orderBy, KeyOf(a), KeyOf(b))
    }

    /** The links passing `w`, ordered as `orderBy` asks; without an ordering (or with an empty
        one) they stay in ascending id order. */
    function Ordered(w: Where, orderBy: Option<seq<LinkOrderByInput>>): (r: seq<Link>)
      reads this
      requires Valid()
      ensures multiset(r) == multiset(Filter(Rows(), Passes(w, users)))
      ensures |r| == Count(w)
      ensures forall l :: l in r <==> l.id in links && links[l.id] == l && Satisfies(w, l, users)
      ensures orderBy == None || orderBy == Some([]) ==> AscendingIds(r)
      ensures orderBy.Some? && orderBy.value != [] && Sorting.TotalPreorder(Comparator(orderBy.value)) ==>
                Sorting.Sorted(r, Comparator(orderBy.value))
    {
      var matches := Filter(Rows(), Passes(w, users));
      FilterKeepsAscendingIds(Rows(), Passes(w, users));
      match orderBy
      case None => matches
      case Some(o) =>
        if o == [] then matches
        else
          var sorted := Sorting.InsertionSort(matches, Comparator(o));
          assert forall l :: l in sorted <==> l in matches by {
            forall l ensures l in sorted <==> l in matches {
              assert l in sorted <==> l in multiset(sorted);
              assert l in matches <==> l in multiset(matches);
            }
          }
          sorted
    }

    /** `findMany({ where, skip, take, orderBy })`: filter, order, drop `skip`, keep `take`.
        A negative `skip` or `take` is rejected. */
    function FindMany(w: Where, skip: Option<int>, take: Option<int>, orderBy: Option<seq<LinkOrderByInput>>)
      : (r: Result<seq<Link>, ApiError>)
      reads this
      requires Valid()
      ensures r.Err? <==> (skip.Some? && skip.value < 0) || (take.Some? && take.value < 0)
      ensures r.Err? ==> r.error == InvalidArgument
      ensures r.Ok? ==> IsPage(r.value, Ordered(w, orderBy), SkipOrZero(skip), take)
      ensures r.Ok? ==> forall l :: l in r.value ==> l.id in links && links[l.id] == l && Satisfies(w, l, users)
      ensures r.Ok? ==> |r.value| <= Count(w) && (take.Some? ==> |r.value| <= take.value)
    {
      if (skip.Some? && skip.value < 0) || (take.Some? && take.value < 0) then
        Err(InvalidArgument)
      else
        var all := Ordered(w, orderBy);
        var page := Window(all, SkipOrZero(skip), take);
        PageWithin(page, all, SkipOrZero(skip), take);
        Ok(page)
    }

    /** `findUnique({ where: { id } })`. */
    function FindUnique(id: int): (r: Option<Link>)
      reads this
      requires Valid()
      ensures r.Some? <==> id in links
      ensures r.Some? ==> r.value == links[id] && r.value.id == id
    {
      if id in links then Some(links[id]) else None
    }

    /** `create`: stores a new link under the next id, posted by `postedBy` at time `now`;
        connecting to an unknown user fails and stores nothing. */
    method Create(description: string, url: string, postedBy: int, now: int) returns (r: Result<Link, ApiError>)
      requires Valid()
      modifies this
      ensures Valid()
      ensures postedBy !in users ==> r == Err(RecordNotFound) && unchanged(this)
      ensures postedBy in users ==>
                && r == Ok(Link(old(nextId), description, url, now, postedBy))
                && old(nextId) !in old(links)
                && links == old(links)[old(nextId) := r.value]
                && nextId == old(nextId) + 1
    {
      if postedBy !in users {
        return Err(RecordNotFound);
      }
      var link := Link(nextId, description, url, now, postedBy);
      links := links[nextId := link];
      nextId := nextId + 1;
      r := Ok(link);
    }

    /** `update`: overwrites the description and url of the link with the given id;
        an unknown id fails and changes nothing. */
    method Update(id: int, description: string, url: string) returns (r: Result<Link, ApiError>)
      requires Valid()
      modifies this
      ensures Valid() && nextId == old(nextId)
      ensures id !in old(links) ==> r == Err(RecordNotFound) && unchanged(this)
      ensures id in old(links) ==>
                && r == Ok(old(links)[id].(description := description, url := url))
                && links == old(links)[id := r.value]
    {
      if id !in links {
        return Err(RecordNotFound);
      }
      var link := links[id].(description := description, url := url);
      links := links[id := link];
      r := Ok(link);
    }

    /** `delete`: removes the link with the given id and returns it; an unknown id fails and
        changes nothing. */
    method Delete(id: int) returns (r: Result<Link, ApiError>)
      requires Valid()
      modifies this
      ensures Valid() && nextId == old(nextId)
      ensures id !in old(links) ==> r == Err(RecordNotFound) && unchanged(this)
      ensures id in old(links) ==> r == Ok(old(links)[id]) && links == old(links) - {id}
    {
      if id !in links {
        return Err(RecordNotFound);
      }
      r := Ok(links[id]);
      links := links - {id};
    }
  }

  /** Ids increase along `s`. */
  ghost predicate AscendingIds(s: seq<Link>)
  {
    forall i, j :: 0 <= i < j < |s| ==> s[i].id < s[j].id
  }

  /** Filtering keeps the relative order of what it keeps. */
  lemma {:induction false} FilterKeepsAscendingIds(s: seq<Link>, keep: Link -> bool)
    requires AscendingIds(s)
    ensures AscendingIds(Filter(s, keep))
  {
    if s != [] {
      var init := s[..|s| - 1];
      var last := s[|s| - 1];
      assert AscendingIds(init);
      FilterKeepsAscendingIds(init, keep);
      var rInit := Filter(init, keep);
      if keep(last) {
        assert Filter(s, keep) == rInit + [last];
        forall i | 0 <= i < |rInit| ensures rInit[i].id < last.id {
          assert rInit[i] in init;
          var k :| 0 <= k < |init| && init[k] == rInit[i];
          assert s[k] == init[k];
        }
      } else {
        assert Filter(s, keep) == rInit;
      }
    }
  }
}
