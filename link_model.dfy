/** The shapes of the link board's schema (Link, Sort, LinkOrderByInput, Feed) and the pure
    parts of the feed resolver: the `where` predicate built from the `filter` argument, the
    pagination window and the feed's fingerprint id. */
module LinkModel {
  import opened Wrappers
  import Strings

  /** The `Sort` enum. */
  datatype Sort = Asc | Desc

  /** One entry of the `orderBy` argument: a direction for any of three fields, each of which
      may also be omitted or given as an explicit `null`. */
  datatype LinkOrderByInput = LinkOrderByInput(description: Arg<Sort>, url: Arg<Sort>, createdAt: Arg<Sort>)

  /** A user as far as links see one: an id and the display name the feed filter searches. */
  datatype User = User(id: int, name: string)

  /** A stored link. `postedBy` is the poster's user id; `createdAt` is the store's clock
      reading when the link was created. */
  datatype Link = Link(id: int, description: string, url: string, createdAt: int, postedBy: int)

  /** The fields a link can be ordered by. */
  datatype SortKey = SortKey(description: string, url: string, createdAt: int)

  function KeyOf(l: Link): SortKey
  {
    SortKey(l.description, l.url, l.createdAt)
  }

  /** A nullable GraphQL argument: omitted, given as an explicit `null`, or given a value.
      The resolver's `args` object keeps the first two apart, and so does its serialisation. */
  datatype Arg<+T> = Absent | Null | Given(value: T)
  {
    /** The argument as the store reads it: an explicit `null` is taken like an omitted one. */
    function ToOption(): (r: Option<T>)
      ensures r.Some? <==> Given?
      ensures r.Some? ==> r.value == value
    {
      if Given? then Some(value) else None
    }
  }

  /** The arguments of the `feed` query. */
  datatype FeedArgs = FeedArgs(filter: Arg<string>, skip: Arg<int>, take: Arg<int>,
                               orderBy: Arg<seq<LinkOrderByInput>>)

  /** The `Feed` object: one page of links, the number of links matching the filter, and an id. */
  datatype Feed = Feed(links: seq<Link>, count: nat, id: string)

  /** The errors the link operations surface: the guard's, and the store's for a missing
      record or a negative pagination argument. */
  datatype ApiError = Unauthenticated(message: string) | RecordNotFound | InvalidArgument

  /** The `where` object of the feed query: `{}`, or a disjunction of three `contains` tests. */
  datatype Where = Everything | AnyFieldContains(needle: string)

  /** Whether a link passes `w`; `users` gives the poster's name. */
  predicate Satisfies(w: Where, l: Link, users: map<int, User>)
  {
    match w
    case Everything => true
    case AnyFieldContains(f) =>
      || Strings.Contains(l.description, f)
      || Strings.Contains(l.url, f)
      || (l.postedBy in users && Strings.Contains(users[l.postedBy].name, f))
  }

  /** Builds `where` from the `filter` argument by JavaScript truthiness: an omitted, `null` or
      empty filter excludes nothing; any other filter keeps exactly the links whose description, url
      or poster's name contains it. */
  function BuildWhere(filter: Arg<string>): (w: Where)
    ensures w == Everything <==> !filter.Given? || filter.value == ""
    ensures forall l: Link, users: map<int, User> :: Satisfies(w, l, users) <==>
              || !filter.Given? || filter.value == ""
              || Strings.Contains(l.description, filter.value)
              || Strings.Contains(l.url, filter.value)
              || (l.postedBy in users && Strings.Contains(users[l.postedBy].name, filter.value))
  {
    match filter
    case Given(f) => if f != "" then AnyFieldContains(f) else Everything
    case _ => Everything
  }

  /** The test `w` applies to each link, as a function. */
  function Passes(w: Where, users: map<int, User>): Link -> bool
  {
    (l: Link) => Satisfies(w, l, users)
  }

  /** The elements of `s` that `keep` accepts. */
  function Filter<T(!new)>(s: seq<T>, keep: T -> bool): (r: seq<T>)
    ensures |r| <= |s|
    ensures forall x :: x in r <==> x in s && keep(x)
    ensures (forall x :: x in s ==> keep(x)) ==> r == s
  {
    if s == [] then []
    else
      var last := s[|s| - 1];
      assert s == s[..|s| - 1] + [last];
      Filter(s[..|s| - 1], keep) + (if keep(last) then [last] else [])
  }

  /** `Filter` adds nothing: each element is kept at most as often as `s` holds it. */
  lemma {:induction false} FilterSubMultiset<T(!new)>(s: seq<T>, keep: T -> bool)
    ensures multiset(Filter(s, keep)) <= multiset(s)
  {
    if s != [] {
      var last := s[|s| - 1];
      assert s == s[..|s| - 1] + [last];
      FilterSubMultiset(s[..|s| - 1], keep);
    }
  }


  /** `page` is the part of `all` that starts at position `skip` and holds `take` elements,
      or every element from `skip` on when `take` is omitted or larger than what is left. */
  ghost predicate IsPage<T>(page: seq<T>, all: seq<T>, skip: nat, take: Option<int>)
  {
    && |page| == (if skip >= |all| then 0
                  else if take.None? || take.value >= |all| - skip then |all| - skip
                  else take.value)
    && forall i :: 0 <= i < |page| ==> skip + i < |all| && page[i] == all[skip + i]
  }

  /** Drops the first `skip` elements of `s` and keeps at most `take` of the rest. */
  function Window<T>(s: seq<T>, skip: nat, take: Option<int>): (r: seq<T>)
    requires take.None? || take.value >= 0
    ensures IsPage(r, s, skip, take)
  {
    if skip >= |s| then []
    else if take.None? || take.value >= |s| - skip then s[skip..]
    else s[skip..skip + take.value]
  }
  /** A page is no longer than the sequence it is taken from nor than `take`, and holds only
      elements of that sequence. */
  lemma PageWithin<T>(page: seq<T>, all: seq<T>, skip: nat, take: Option<int>)
    requires IsPage(page, all, skip, take)
    ensures |page| <= |all|
    ensures take.Some? && take.value >= 0 ==> |page| <= take.value
    ensures forall x :: x in page ==> x in all
  {
    forall x | x in page ensures x in all {
      var i :| 0 <= i < |page| && page[i] == x;
      assert all[skip + i] == x;
    }
  }


  /** The prefix of every feed id. */
  const FeedIdPrefix: string := "main-feed:"

  /** The feed's id: the prefix followed by the serialised arguments; `serialize` stands for
      `JSON.stringify`. */
  function FeedId(args: FeedArgs, serialize: FeedArgs -> string): (id: string)
    ensures |id| >= |FeedIdPrefix| && id[..|FeedIdPrefix|] == FeedIdPrefix
    ensures id[|FeedIdPrefix|..] == serialize(args)
  {
    FeedIdPrefix + serialize(args)
  }

  /** The serialiser maps distinct arguments to distinct strings. */
  ghost predicate Injective(serialize: FeedArgs -> string)
  {
    forall a, b :: serialize(a) == serialize(b) ==> a == b
  }

  /** Equal arguments give equal ids; with an injective serialiser, equal ids come only from
      equal arguments. */
  lemma FeedIdIdentifiesArgs(a: FeedArgs, b: FeedArgs, serialize: FeedArgs -> string)
    ensures a == b ==> FeedId(a, serialize) == FeedId(b, serialize)
    ensures Injective(serialize) && FeedId(a, serialize) == FeedId(b, serialize) ==> a == b
  {
  }

  /** With an injective serialiser, `feed(filter: null)` and `feed` without arguments have
      different ids, as `{"filter":null}` and `{}` differ. */
  lemma FeedIdKeepsNullApart(serialize: FeedArgs -> string)
    requires Injective(serialize)
    ensures FeedId(FeedArgs(Null, Absent, Absent, Absent), serialize) !=
            FeedId(FeedArgs(Absent, Absent, Absent, Absent), serialize)
  {
    FeedIdIdentifiesArgs(FeedArgs(Null, Absent, Absent, Absent), FeedArgs(Absent, Absent, Absent, Absent), serialize);
  }

  /** The same holds inside an `orderBy` entry: with an injective serialiser,
      `feed(orderBy: [{description: null}])` and `feed(orderBy: [{}])` have different ids. */
  lemma FeedIdKeepsNestedNullApart(serialize: FeedArgs -> string)
    requires Injective(serialize)
    ensures FeedId(FeedArgs(Absent, Absent, Absent, Given([LinkOrderByInput(Null, Absent, Absent)])), serialize) !=
            FeedId(FeedArgs(Absent, Absent, Absent, Given([LinkOrderByInput(Absent, Absent, Absent)])), serialize)
  {
    var a := FeedArgs(Absent, Absent, Absent, Given([LinkOrderByInput(Null, Absent, Absent)]));
    var b := FeedArgs(Absent, Absent, Absent, Given([LinkOrderByInput(Absent, Absent, Absent)]));
    assert a.orderBy.value[0] != b.orderBy.value[0];
    FeedIdIdentifiesArgs(a, b, serialize);
  }
}
