# Link board: feed resolution, link mutations and authentication

This project models the decision logic of a small GraphQL link-sharing board. Users post
links, edit and delete them, and query a feed that can be filtered, paginated and ordered.

The model covers two source files:

- `src/graphql/Link.ts`, the resolvers.
  - The `feed` query builds a `where` predicate from the optional `filter` argument.
    It sends that predicate to `findMany` (with `skip`, `take` and `orderBy`) and to `count`
    (without them). Its id is `main-feed:` followed by the serialised arguments.
  - The `link` query wraps a single lookup in a one-element list.
  - The `post`, `updateLink` and `deleteLink` mutations each run the authentication guard,
    then do one create, update or delete.
- `src/utils/auth.ts`, the authentication helpers.
  - `decodeAuthHeader` removes the first `"Bearer "` from the header and rejects an empty
    token. Any other token goes to the token verifier.
  - `ensureAuthMutation` throws unless the context's `userId` is truthy.

The persistence layer becomes an explicit in-memory store, the class `Store.LinkStore`.
It holds a map from id to link and the next id to assign, and offers the operations the
resolvers call:

- `FindMany`: filter, then order, then drop `skip`, then keep `take`.
- `Count`: the number of matching links.
- `FindUnique`, `Create`, `Update`, `Delete`: single-record operations.

Some things are parameters of the model rather than parts of it:

- The token verifier (`jwt.verify`) is a function parameter of type `Auth.Verifier`.
- The argument serialiser (`JSON.stringify`) is a function parameter `serialize`.
- The ordering that `orderBy` asks for is a comparator stored in the store (`compare`).
- The creation clock is the `now` parameter of `post`.

The modules:

| file | module | contents |
|---|---|---|
| wrappers.dfy | Wrappers | `Option`, `Result`, `Outcome` |
| strings.dfy | Strings | substring test, first-occurrence search, first-occurrence replacement |
| auth.dfy | Auth | `StripBearer`, `DecodeAuthHeader`, `EnsureAuthMutation` and their lemmas |
| sorting.dfy | Sorting | insertion sort over an abstract comparator, proved to permute and to sort |
| link_model.dfy | LinkModel | schema shapes, `BuildWhere`, `Filter`, `Window`/`IsPage`, `FeedId` |
| link_store.dfy | Store | the `LinkStore` class and the lemmas tying its rows to its map |
| link_resolvers.dfy | LinkResolvers | `ResolveFeed`, `LinkQuery`, `Post`, `UpdateLink`, `DeleteLink`, two client scenarios |

Three behaviours of the code a reader may not expect:

- The guard also refuses a `userId` of `0`, because the code tests truthiness, not presence.
- `link` always returns a one-element list. That element is null when the id is absent.
  The result is never an empty list.
- `"Bearer "` is removed wherever it first occurs in the header, not only as a prefix.

Substring matching is case-sensitive.

`LinkResolvers.MutationScenario` and `LinkResolvers.FeedScenario` are client methods. They
show what a caller can conclude from the contracts alone:

- the post / read back / edit / delete round trip;
- a refused anonymous post;
- an edit of the unknown id 999;
- a feed filtered by `"graphql"` over `graphql.org` and `example.com`, which lists one link
  and counts one.

## Model

| member | source | states |
|---|---|---|
| Strings.IndexFrom | src/utils/auth.ts:11 | the result is the leftmost occurrence of the pattern at or after the start index, or none when there is no later occurrence |
| Strings.IndexOf | src/utils/auth.ts:11 | a position is found iff the pattern is a substring, and that position is the first occurrence |
| Strings.ReplaceFirst | src/utils/auth.ts:11 | with no occurrence the string is unchanged; otherwise exactly the first occurrence is replaced; the length changes by the replacement's length minus the pattern's |
| Auth.StripBearer | src/utils/auth.ts:11 | the token is the header with its first `"Bearer "` cut out, wherever it stands; a header without it passes through unchanged; the length is the header's minus 7 when it contains the prefix, otherwise the header's |
| Auth.DecodeAuthHeader | src/utils/auth.ts:10-17 | fails with NoTokenFound iff the stripped token is empty; otherwise the verifier's payload is returned, or its failure reason is propagated unchanged, for the token with the application secret |
| Auth.EmptyTokenNeverVerified | src/utils/auth.ts:13-16 | for the header `""` or exactly `"Bearer "`, decoding fails with "No token found" whatever the verifier would answer, so the verifier is not consulted |
| Auth.DecodeDependsOnlyOnToken | src/utils/auth.ts:11-16 | two headers that strip to the same token decode to the same result |
| Auth.EnsureAuthMutation | src/utils/auth.ts:19-23 | fails iff `userId` is absent or 0; the failure message is exactly "Cannot " + action + " without loggin in."; otherwise it passes and reads nothing else |
| Auth.StripBearerOfWellFormedHeader | src/utils/auth.ts:11 | `"Bearer " + t` strips to `t` |
| Auth.StripBearerOfEmptyHeaders | src/utils/auth.ts:11-14 | `""` and `"Bearer "` both strip to the empty token |
| Auth.StripBearerRemovesOnce | src/utils/auth.ts:11 | only the first occurrence is removed: `"Bearer Bearer abc"` strips to `"Bearer abc"` |
| Auth.StripBearerRemovesInside | src/utils/auth.ts:11 | an occurrence that is not at the start is removed too: `"xBearer y"` strips to `"xy"` |
| Auth.StripBearerKeepsPlainHeader | src/utils/auth.ts:11 | every header in which `"Bearer "` occurs nowhere strips to itself |
| Sorting.Insert | src/graphql/Link.ts:63 | insertion adds exactly one copy of the element to the multiset of the sequence |
| Sorting.InsertSorted | src/graphql/Link.ts:63 | under a total preorder, inserting into a sorted sequence gives a sorted sequence |
| Sorting.InsertionSort | src/graphql/Link.ts:63 | the result is a permutation of the input and, under a total preorder, sorted |
| LinkModel.BuildWhere | src/graphql/Link.ts:47-57 | `where` is empty iff the filter is omitted, `null` or `""`; a link passes iff the filter is falsy or it is a substring of the description, the url or the poster's name |
| LinkModel.Filter | src/graphql/Link.ts:59-60 | the kept elements are exactly those of the input that pass, and no more of them than the input has; a predicate that keeps everything gives back the input |
| LinkModel.FilterSubMultiset | src/graphql/Link.ts:59-60 | filtering keeps each element at most as often as the input holds it |
| LinkModel.Window | src/graphql/Link.ts:61-62 | the page starts at position `skip` of the whole sequence and holds `take` elements, or all that remain when `take` is omitted or too large |
| LinkModel.FeedId | src/graphql/Link.ts:67 | the id starts with `main-feed:` and the rest is the serialisation of the arguments, each of which is omitted, `null` or given |
| LinkModel.FeedIdIdentifiesArgs | src/graphql/Link.ts:67 | equal arguments give equal ids; with an injective serialiser, equal ids come only from equal arguments (an omitted argument or `orderBy` field and an explicit `null` are different arguments) |
| LinkModel.FeedIdKeepsNullApart | src/graphql/Link.ts:67 | with an injective serialiser, `feed(filter: null)` and `feed` without arguments get different ids |
| LinkModel.FeedIdKeepsNestedNullApart | src/graphql/Link.ts:67 | with an injective serialiser, `feed(orderBy: [{description: null}])` and `feed(orderBy: [{}])` get different ids |
| Store.RowsBelowContents | src/graphql/Link.ts:59-64 | the rows below a bound are exactly the links stored under ids below it, in ascending id order |
| Store.FilterRowsCount | src/graphql/Link.ts:66 | filtering the rows leaves one row per matching stored id |
| Store.LinkStore.Rows | src/graphql/Link.ts:59-64 | every stored link is listed exactly once, in ascending id order, the order this model fixes for a query without `orderBy` |
| Store.LinkStore.Count | src/graphql/Link.ts:66 | the count is the number of stored links that pass `where` |
| Store.LinkStore.Ordered | src/graphql/Link.ts:59-63 | the ordered matches are a permutation of the filtered rows, of length `count`, holding exactly the stored links that pass `where`; they are in id order without `orderBy` and sorted by the comparator when it is a total preorder |
| Store.LinkStore.FindMany | src/graphql/Link.ts:59-64 | a negative `skip` or `take` is rejected; otherwise the result is the page at `skip` of length at most `take` over the ordered matches, every returned link is stored and passes `where`, and there are no more than `count` of them |
| Store.LinkStore.FindUnique | src/graphql/Link.ts:115-119 | the lookup finds a link iff the id is stored, and returns the link stored under it |
| Store.LinkStore.Create | src/graphql/Link.ts:93-99 | an unknown poster fails and changes nothing; otherwise exactly one link is added, under the next id, with the given fields, and the counter advances |
| Store.LinkStore.Update | src/graphql/Link.ts:140-148 | an unknown id fails and changes nothing; otherwise only the description and url of that link change |
| Store.LinkStore.Delete | src/graphql/Link.ts:161-165 | an unknown id fails and changes nothing; otherwise exactly that link is removed and its prior value returned |
| LinkResolvers.ResolveFeed | src/graphql/Link.ts:46-73 | the error cases are exactly a negative `skip`/`take`; the count is the number of matching links; every listed link is stored and matches; the links are the page at `skip` of length at most `take` over the ordered matches, so there are at most `count` of them; the id is `main-feed:` + the serialised arguments |
| LinkResolvers.FeedCountIgnoresWindow | src/graphql/Link.ts:59-66 | two feeds with the same filter have the same count, whatever their `skip`, `take` and `orderBy` |
| LinkResolvers.FeedIdIgnoresStore | src/graphql/Link.ts:67 | the same arguments give the same id over any two stores |
| LinkResolvers.NoFilterExcludesNothing | src/graphql/Link.ts:47-66 | with the filter omitted, `null` or `""`, the count is the number of stored links, and without `skip`, `take` or `orderBy` every stored link is listed, in the model's ascending id order |
| LinkResolvers.NoFilterListsEverything | src/graphql/Link.ts:47-66 | with the filter omitted, `null` or `""` and without `skip` or `take`, the page holds every stored link exactly once, whatever `orderBy` asks for |
| LinkResolvers.LinkQuery | src/graphql/Link.ts:114-122 | the result is always a one-element list, holding the stored link when the id is present and null otherwise |
| LinkResolvers.Post | src/graphql/Link.ts:87-101 | when the guard fails the error is "Cannot post without loggin in." and the store is unchanged; otherwise one link is created with the given description and url, posted by the context's user, and the `link` query then returns it |
| LinkResolvers.UpdateLink | src/graphql/Link.ts:137-151 | when the guard fails the error is "Cannot edit without loggin in." and the store is unchanged; an unknown id fails with nothing changed; otherwise only the description and url of the target change, and the `link` query then returns the new value |
| LinkResolvers.DeleteLink | src/graphql/Link.ts:158-168 | when the guard fails the error is "Cannot delete without loggin in." and the store is unchanged; an unknown id fails with nothing changed; otherwise only the target is removed, its prior value is returned, and the `link` query then returns null |
| LinkResolvers.NoGraphqlInExample | src/graphql/Link.ts:47-55 | a helper of `FeedScenario` about its two literals, not a property of the filter: `"graphql"` is a substring of neither `"Example"` nor `"example.com"` |

## Left out

- The `postedBy` and `voters` field resolvers (src/graphql/Link.ts:12-31) traverse relations in the persistence layer. A link records only its poster's id; voters are not modelled.
- Query planning and SQL are not modelled. The store computes the same answers directly.
- Prisma's multi-key `orderBy` semantics are not modelled. Ordering is an abstract comparator supplied to the store, and sortedness is proved only when that comparator is a total preorder.
- Prisma reads a negative `take` as pagination backwards from the end. The model does not: a negative `skip` or `take` is rejected with `InvalidArgument`.
- Database collation is not modelled. A database whose `contains` ignores case would match more links than this case-sensitive model.
- `jwt.verify` and its HMAC signature check are a function parameter (`Auth.Verifier`). No cryptography is modelled.
- The exact text of `JSON.stringify` is not modelled. It is a function parameter `serialize`.
- `createdAt` is an integer supplied by the caller (`now`), not a real timestamp.
- GraphQL's `Int` is a signed 32-bit integer, and values outside that range are rejected before any resolver runs. The model takes `skip`, `take` and the `id` arguments as unbounded integers, so it accepts for example `feed(skip: 3000000000)`, which the server refuses.
- Promises and `async` are not modelled. Every call is taken as awaited in order.
- Without `orderBy` (or with an empty one) the database promises no row order. The model fixes ascending id order there, so `Store.LinkStore.Rows`, `Store.LinkStore.Ordered` and `LinkResolvers.NoFilterExcludesNothing` state an order the database does not guarantee.
- The sort is not proved stable: under a comparator with ties, the relative order of tied links is not promised.
- An explicit `null` for `skip`, `take` or `orderBy` is kept apart from an omitted argument in the feed's arguments and id. The store reads it as omitted; what the database does with a `null` there is not modelled.
- The Nexus schema declarations (src/graphql/Link.ts:5-11, src/graphql/Link.ts:174-195) are modelled only as datatype shapes.
- The schema's nullable `Feed.id` is modelled as always present, as the resolver always sets it.
- Building the request context from the header is not modelled; `src/context.ts` is not part of this model. `Auth.Context` holds only `userId`, as an optional integer. JavaScript `NaN` is not modelled.
- The server bootstrap in `src/index.ts` is transport I/O.
- Store.LinkStore.Create: a `post` whose user id names no stored user fails with `RecordNotFound`. This is how Prisma's nested `connect` behaves; the resolver code itself does not check it.
