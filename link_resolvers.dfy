/** The resolvers of the link schema: the `feed` and `link` queries, and the `post`,
    `updateLink` and `deleteLink` mutations, each of which runs the authentication guard
    before its single store operation. */
module LinkResolvers {
  import opened Wrappers
  import opened LinkModel
  import opened Store
  import Auth
  import Strings

  /** The `feed` query: the page of matching links `findMany` returns, the `count` of all
      matching links, and the id `main-feed:` + serialised arguments. */
  function ResolveFeed(store: LinkStore, args: FeedArgs, serialize: FeedArgs -> string): (r: Result<Feed, ApiError>)
    reads store
    requires store.Valid()
    ensures r.Err? <==> (args.skip.Given? && args.skip.value < 0) || (args.take.Given? && args.take.value < 0)
    ensures r.Err? ==> r.error == InvalidArgument
    ensures r.Ok? ==> r.value.count == |store.MatchingIds(BuildWhere(args.filter))|
    ensures r.Ok? ==> forall l :: l in r.value.links ==>
              && l.id in store.links && store.links[l.id] == l
              && Satisfies(BuildWhere(args.filter), l, store.users)
    ensures r.Ok? ==> IsPage(r.value.links, store.Ordered(BuildWhere(args.filter), args.orderBy.ToOption()),
                                SkipOrZero(args.skip.ToOption()), args.take.ToOption())
    ensures r.Ok? ==> |r.value.links| <= r.value.count
    ensures r.Ok? ==> args.take.Given? ==> |r.value.links| <= args.take.value
    ensures r.Ok? ==> |r.value.id| >= |FeedIdPrefix| && r.value.id[..|FeedIdPrefix|] == FeedIdPrefix
    ensures r.Ok? ==> r.value.id[|FeedIdPrefix|..] == serialize(args)
  {
    var where := BuildWhere(args.filter);
    match store.FindMany(where, args.skip.ToOption(), args.take.ToOption(), args.orderBy.ToOption())
    case Err(e) => Err(e)
    case Ok(links) =>
      var count := store.Count(where);
      var id := FeedId(args, serialize);
      Ok(Feed(links, count, id))
  }

  /** The `count` of a feed does not depend on its window: two queries with the same filter
      report the same count, whatever their `skip`, `take` and `orderBy`. */
  lemma FeedCountIgnoresWindow(store: LinkStore, a: FeedArgs, b: FeedArgs, serialize: FeedArgs -> string)
    requires store.Valid()
    requires a.filter == b.filter
    requires ResolveFeed(store, a, serialize).Ok? && ResolveFeed(store, b, serialize).Ok?
    ensures ResolveFeed(store, a, serialize).value.count == ResolveFeed(store, b, serialize).value.count
  {
  }

  /** The feed id depends only on the arguments, not on what is stored: the same arguments give
      the same id over any two stores. */
  lemma FeedIdIgnoresStore(s1: LinkStore, s2: LinkStore, args: FeedArgs, serialize: FeedArgs -> string)
    requires s1.Valid() && s2.Valid()
    ensures ResolveFeed(s1, args, serialize).Ok? == ResolveFeed(s2, args, serialize).Ok?
    ensures ResolveFeed(s1, args, serialize).Ok? ==>
              ResolveFeed(s1, args, serialize).value.id == ResolveFeed(s2, args, serialize).value.id
  {
  }

  /** Without a filter (omitted, `null` or the empty string) no link is excluded: the count is the number
      of stored links and, without a window or ordering, every stored link is listed in id order. */
  lemma NoFilterExcludesNothing(store: LinkStore, filter: Arg<string>, serialize: FeedArgs -> string)
    requires store.Valid()
    requires !filter.Given? || filter.value == ""
    ensures var r := ResolveFeed(store, FeedArgs(filter, Absent, Absent, Absent), serialize);
            && r.Ok?
            && r.value.count == |store.links|
            && r.value.links == store.Rows()
  {
    assert store.MatchingIds(BuildWhere(filter)) == store.links.Keys;
    var r := ResolveFeed(store, FeedArgs(filter, Absent, Absent, Absent), serialize);
    var all := store.Ordered(BuildWhere(filter), None);
    assert all == store.Rows();
    assert r.value.links == all by {
      assert |r.value.links| == |all|;
      forall i | 0 <= i < |all| ensures r.value.links[i] == all[i] {
      }
    }
  }

  /** Without a filter and without `skip` or `take`, every stored link is listed exactly
      once, whatever `orderBy` asks for. */
  lemma NoFilterListsEverything(store: LinkStore, filter: Arg<string>, orderBy: Arg<seq<LinkOrderByInput>>,
                                serialize: FeedArgs -> string)
    requires store.Valid()
    requires !filter.Given? || filter.value == ""
    ensures var r := ResolveFeed(store, FeedArgs(filter, Absent, Absent, orderBy), serialize);
            && r.Ok?
            && multiset(r.value.links) == multiset(store.Rows())
  {
    var w := BuildWhere(filter);
    var r := ResolveFeed(store, FeedArgs(filter, Absent, Absent, orderBy), serialize);
    var all := store.Ordered(w, orderBy.ToOption());
    assert Filter(store.Rows(), Passes(w, store.users)) == store.Rows();
    assert r.value.links == all by {
      assert |r.value.links| == |all|;
      forall i | 0 <= i < |all| ensures r.value.links[i] == all[i] {
      }
    }
  }

  /** The `link` query: a one-element list holding the lookup's result, `None` (null) when no
      link has the id. */
  function LinkQuery(store: LinkStore, id: int): (r: seq<Option<Link>>)
    reads store
    requires store.Valid()
    ensures |r| == 1
    ensures r[0].Some? <==> id in store.links
    ensures r[0].Some? ==> r[0].value == store.links[id] && r[0].value.id == id
  {
    [store.FindUnique(id)]
  }

  /** The `post` mutation: after the guard, creates a link with the given description and url,
      posted by the context's user. */
  method Post(store: LinkStore, ctx: Auth.Context, description: string, url: string, now: int)
    returns (r: Result<Link, ApiError>)
    requires store.Valid()
    modifies store
    ensures store.Valid()
    ensures Auth.EnsureAuthMutation(ctx, "post").Fail? ==>
              r == Err(Unauthenticated("Cannot post without loggin in.")) && unchanged(store)
    ensures Auth.EnsureAuthMutation(ctx, "post").Pass? ==>
              var user := ctx.userId.value;
              && (user !in store.users ==> r == Err(RecordNotFound) && unchanged(store))
              && (user in store.users ==>
                    && r == Ok(Link(old(store.nextId), description, url, now, user))
                    && old(store.nextId) !in old(store.links)
                    && store.links == old(store.links)[r.value.id := r.value]
                    && store.nextId == old(store.nextId) + 1)
    ensures r.Ok? ==> LinkQuery(store, r.value.id) == [Some(r.value)]
  {
    var guard := Auth.EnsureAuthMutation(ctx, "post");
    if guard.Fail? {
      assert guard.error == "Cannot post without loggin in.";
      return Err(Unauthenticated(guard.error));
    }
    r := store.Create(description, url, ctx.userId.value, now);
  }

  /** The `updateLink` mutation: after the guard, overwrites the description and url of the link
      with the given id; every other field and every other link stay as they were. */
  method UpdateLink(store: LinkStore, ctx: Auth.Context, id: int, url: string, description: string)
    returns (r: Result<Link, ApiError>)
    requires store.Valid()
    modifies store
    ensures store.Valid() && store.nextId == old(store.nextId)
    ensures Auth.EnsureAuthMutation(ctx, "edit").Fail? ==>
              r == Err(Unauthenticated("Cannot edit without loggin in.")) && unchanged(store)
    ensures Auth.EnsureAuthMutation(ctx, "edit").Pass? ==>
              && (id !in old(store.links) ==> r == Err(RecordNotFound) && unchanged(store))
              && (id in old(store.links) ==>
                    var before := old(store.links)[id];
                    && r == Ok(Link(id, description, url, before.createdAt, before.postedBy))
                    && store.links == old(store.links)[id := r.value])
    ensures r.Ok? ==> LinkQuery(store, id) == [Some(r.value)]
  {
    var guard := Auth.EnsureAuthMutation(ctx, "edit");
    if guard.Fail? {
      assert guard.error == "Cannot edit without loggin in.";
      return Err(Unauthenticated(guard.error));
    }
    r := store.Update(id, description, url);
  }

  /** The `deleteLink` mutation: after the guard, removes the link with the given id and returns
      what it was; every other link stays as it was. */
  method DeleteLink(store: LinkStore, ctx: Auth.Context, id: int) returns (r: Result<Link, ApiError>)
    requires store.Valid()
    modifies store
    ensures store.Valid() && store.nextId == old(store.nextId)
    ensures Auth.EnsureAuthMutation(ctx, "delete").Fail? ==>
              r == Err(Unauthenticated("Cannot delete without loggin in.")) && unchanged(store)
    ensures Auth.EnsureAuthMutation(ctx, "delete").Pass? ==>
              && (id !in old(store.links) ==> r == Err(RecordNotFound) && unchanged(store))
              && (id in old(store.links) ==> r == Ok(old(store.links)[id]) && store.links == old(store.links) - {id})
    ensures r.Ok? ==> LinkQuery(store, id) == [None]
  {
    var guard := Auth.EnsureAuthMutation(ctx, "delete");
    if guard.Fail? {
      assert guard.error == "Cannot delete without loggin in.";
      return Err(Unauthenticated(guard.error));
    }
    r := store.Delete(id);
  }

  /** A client run: user 1 posts a link, reads it back, edits it and deletes it; a caller without
      a credential and an edit of an unknown id are refused without changing the store. */
  method MutationScenario()
  {
    var store := new LinkStore(map[1 := User(1, "Ada")], (o, a, b) => true);
    var user := Auth.Context(Some(1));
    var posted := Post(store, user, "GraphQL official website", "graphql.org", 100);
    assert posted == Ok(Link(1, "GraphQL official website", "graphql.org", 100, 1));
    assert LinkQuery(store, 1) == [Some(posted.value)];

    var anonymous := Post(store, Auth.Context(None), "spam", "spam.example", 101);
    assert anonymous == Err(Unauthenticated("Cannot post without loggin in."));
    assert store.links == map[1 := posted.value];

    var missing := UpdateLink(store, user, 999, "x.org", "x");
    assert missing == Err(RecordNotFound);

    var edited := UpdateLink(store, user, 1, "graphql.org/learn", "Learn GraphQL");
    assert LinkQuery(store, 1) == [Some(Link(1, "Learn GraphQL", "graphql.org/learn", 100, 1))];

    var deleted := DeleteLink(store, user, 1);
    assert deleted == Ok(Link(1, "Learn GraphQL", "graphql.org/learn", 100, 1));
    assert LinkQuery(store, 1) == [None];
  }

  /** "graphql" occurs in neither the description nor the url of the second link. */
  lemma NoGraphqlInExample()
    ensures !Strings.Contains("Example", "graphql")
    ensures !Strings.Contains("example.com", "graphql")
  {
    var url, needle := "example.com", "graphql";
    forall i: nat | i <= |url| ensures !Strings.OccursAt(url, needle, i) {
      if i + |needle| <= |url| {
        assert i == 0 || i == 1 || i == 2 || i == 3 || i == 4;
        assert url[i] != needle[0];
        assert url[i..i + |needle|][0] == url[i];
      }
    }
    var description := "Example";
    forall i: nat | i <= |description| ensures !Strings.OccursAt(description, needle, i) {
      if i + |needle| <= |description| {
        assert description[i..i + |needle|][0] == description[0] != needle[0];
      }
    }
  }

  /** A feed filtered by "graphql" over a store with one matching link and one other link lists
      the matching link only and counts one. */
  method FeedScenario(serialize: FeedArgs -> string)
  {
    var store := new LinkStore(map[1 := User(1, "Ada")], (o, a, b) => true);
    var user := Auth.Context(Some(1));
    var first := Post(store, user, "GraphQL official website", "graphql.org", 100);
    var second := Post(store, user, "Example", "example.com", 101);
    var graphqlLink := Link(1, "GraphQL official website", "graphql.org", 100, 1);
    var exampleLink := Link(2, "Example", "example.com", 101, 1);
    assert store.links == map[1 := graphqlLink, 2 := exampleLink];

    var where := BuildWhere(Given("graphql"));
    assert Strings.OccursAt("graphql.org", "graphql", 0);
    assert Satisfies(where, graphqlLink, store.users);
    NoGraphqlInExample();
    assert !Satisfies(where, exampleLink, store.users);
    assert store.MatchingIds(where) == {1};

    var matches := store.Ordered(where, None);
    assert |matches| == 1;
    assert matches[0] in matches;
    assert matches == [graphqlLink];

    var feed := ResolveFeed(store, FeedArgs(Given("graphql"), Absent, Absent, Absent), serialize);
    assert feed.Ok? && feed.value.count == 1;
    assert feed.value.links == [graphqlLink];
  }
}
