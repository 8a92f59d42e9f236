/**
 * The three tables behind the user service, as values, and the repository
 * operations on them: the users table (rows in insertion order, at most one
 * row per id), the friend-edge table (duplicates allowed, since creation only
 * appends) and the set of user ids that own post-reading records.
 */
module Repository {
  import opened Entities
  import opened Seqs

  /** The column a users-table query filters on. */
  datatype UserKey = ById(id: int) | ByName(name: string) | ByEmail(email: string)

  predicate Matches(key: UserKey, u: UserEntity) {
    match key
    case ById(id) => u.id == id
    case ByName(name) => u.name == name
    case ByEmail(email) => u.email == email
  }

  /** The id is the users table's primary key: no two rows share one. */
  predicate DistinctIds(users: seq<UserEntity>) {
    forall i, j :: 0 <= i < j < |users| ==> users[i].id != users[j].id
  }

  /** findById, findByName, findByEmail: the first row matching the key, if any. */
  function FindUser(users: seq<UserEntity>, key: UserKey): (r: Option<UserEntity>)
    ensures r.Some? ==> r.value in users && Matches(key, r.value)
    ensures r.None? <==> forall u :: u in users ==> !Matches(key, u)
  {
    match FirstIndex(users, u => Matches(key, u))
    case None => None
    case Some(k) => Some(users[k])
  }

  /** The row a lookup returns is the first matching one. */
  lemma FindUserIsFirst(users: seq<UserEntity>, key: UserKey)
    requires FindUser(users, key).Some?
    ensures exists i :: 0 <= i < |users| && users[i] == FindUser(users, key).value &&
                        forall j :: 0 <= j < i ==> !Matches(key, users[j])
  {
    var k := FirstIndex(users, u => Matches(key, u)).value;
    assert users[k] == FindUser(users, key).value;
  }

  /** With ids unique, the lookup by id of a row's id finds that row. */
  lemma FindByIdOfRow(users: seq<UserEntity>, u: UserEntity)
    requires DistinctIds(users) && u in users
    ensures FindUser(users, ById(u.id)) == Some(u)
  {
    var i :| 0 <= i < |users| && users[i] == u;
    var found := FindUser(users, ById(u.id));
    FindUserIsFirst(users, ById(u.id));
    var k :| 0 <= k < |users| && users[k] == found.value &&
             forall j :: 0 <= j < k ==> !Matches(ById(u.id), users[j]);
    assert !(k < i) && !(i < k);
  }

  /** save(entity): the row with the entity's id is replaced in place; an unknown id is appended. */
  function SaveUser(users: seq<UserEntity>, e: UserEntity): (r: seq<UserEntity>)
    ensures e in r
    ensures forall u :: u in r ==> u == e || (u in users && u.id != e.id)
    ensures forall u :: u in users && u.id != e.id ==> u in r
    ensures DistinctIds(users) ==> DistinctIds(r)
  {
    if exists u :: u in users && u.id == e.id then
      var r := seq(|users|, i requires 0 <= i < |users| => if users[i].id == e.id then e else users[i]);
      assert forall i :: 0 <= i < |users| ==> r[i].id == users[i].id;
      assert forall u :: u in users && u.id != e.id ==> u in r by {
        forall u | u in users && u.id != e.id ensures u in r {
          var i :| 0 <= i < |users| && users[i] == u;
          assert r[i] == u;
        }
      }
      r
    else
      users + [e]
  }

  /** After a save, the lookup by the saved id finds exactly the saved row. */
  lemma SaveThenFindById(users: seq<UserEntity>, e: UserEntity)
    requires DistinctIds(users)
    ensures FindUser(SaveUser(users, e), ById(e.id)) == Some(e)
  {
    FindByIdOfRow(SaveUser(users, e), e);
  }

  /** deleteById(id): every row with that id is gone, every other row stays. */
  function DeleteById(users: seq<UserEntity>, id: int): (r: seq<UserEntity>)
    ensures forall u :: u in r <==> u in users && u.id != id
    ensures forall u: UserEntity :: u.id != id ==> multiset(r)[u] == multiset(users)[u]
    ensures DistinctIds(users) ==> DistinctIds(r)
  {
    var keep := (u: UserEntity) => u.id != id;
    FilterKeepsDistinctIds(users, keep);
    Filter(users, keep)
  }

  /** A row whose id no other row has can be put in front without a clash. */
  lemma ConsKeepsDistinctIds(x: UserEntity, rest: seq<UserEntity>)
    requires DistinctIds(rest)
    requires forall y :: y in rest ==> y.id != x.id
    ensures DistinctIds([x] + rest)
  {
    var r := [x] + rest;
    forall i, j | 0 <= i < j < |r| ensures r[i].id != r[j].id {
      assert r[j] == rest[j - 1];
      if i > 0 {
        assert r[i] == rest[i - 1];
      }
    }
  }

  /** Dropping rows keeps the ids unique. */
  lemma {:induction false} FilterKeepsDistinctIds(users: seq<UserEntity>, keep: UserEntity -> bool)
    ensures DistinctIds(users) ==> DistinctIds(Filter(users, keep))
  {
    if |users| > 0 && DistinctIds(users) {
      var tail := users[1..];
      assert DistinctIds(tail) by {
        forall i, j | 0 <= i < j < |tail| ensures tail[i].id != tail[j].id {
          assert tail[i] == users[i + 1] && tail[j] == users[j + 1];
        }
      }
      FilterKeepsDistinctIds(tail, keep);
      var rest := Filter(tail, keep);
      if keep(users[0]) {
        forall y | y in rest ensures y.id != users[0].id {
          assert y in tail;
          var m :| 0 <= m < |tail| && tail[m] == y;
          assert users[m + 1] == y;
        }
        ConsKeepsDistinctIds(users[0], rest);
      }
    }
  }

  /** What the single-result query findByUser1AndUser2 sees for a pair. */
  datatype EdgeLookup = NoEdge | OneEdge(index: nat) | SeveralEdges

  /** The edge at index `k` leads from `a` to `b`. */
  predicate EdgeAt(edges: seq<Edge>, k: int, a: int, b: int)
    requires 0 <= k < |edges|
  {
    edges[k].user1 == a && edges[k].user2 == b
  }

  /** Two different rows both lead from `a` to `b`. */
  predicate LinkedTwice(edges: seq<Edge>, a: int, b: int) {
    exists i, j :: 0 <= i < j < |edges| && EdgeAt(edges, i, a, b) && EdgeAt(edges, j, a, b)
  }

  /**
   * findByUser1AndUser2 returning Optional<Friend>: empty when no row matches,
   * the one matching row, or a result-size failure when several rows match.
   */
  function FindEdge(edges: seq<Edge>, user1: int, user2: int): (r: EdgeLookup)
    ensures r.OneEdge? ==> r.index < |edges| && EdgeAt(edges, r.index, user1, user2)
    ensures r.OneEdge? ==> forall j :: 0 <= j < |edges| && j != r.index ==> !EdgeAt(edges, j, user1, user2)
    ensures r.NoEdge? <==> !Linked(edges, user1, user2)
    ensures r.SeveralEdges? <==> LinkedTwice(edges, user1, user2)
  {
    var p := (e: Edge) => e.user1 == user1 && e.user2 == user2;
    match FirstIndex(edges, p)
    case None =>
      assert forall e :: e in edges ==> !p(e);
      NoEdge
    case Some(k) =>
      var rest := edges[k + 1..];
      assert forall j :: k < j < |edges| ==> edges[j] == rest[j - k - 1];
      assert edges[k] in edges;
      match FirstIndex(rest, p)
      case None => OneEdge(k)
      case Some(m) =>
        assert EdgeAt(edges, k, user1, user2) && EdgeAt(edges, k + 1 + m, user1, user2);
        SeveralEdges
  }

  /** Some edge leads from `a` to `b`, whatever its status. */
  predicate Linked(edges: seq<Edge>, a: int, b: int) {
    exists e :: e in edges && e.user1 == a && e.user2 == b
  }

  /** deleteAllByUser1(id): the edges that start at `id` go; those that only end there stay. */
  function DeleteAllByUser1(edges: seq<Edge>, id: int): (r: seq<Edge>)
    ensures forall e :: e in r <==> e in edges && e.user1 != id
    ensures forall e: Edge :: e.user1 != id ==> multiset(r)[e] == multiset(edges)[e]
  {
    Filter(edges, (e: Edge) => e.user1 != id)
  }

  /**
   * The cascade is one-sided: afterwards nothing leads away from `id`, but
   * every other user who followed `id` still does, so those edges dangle.
   */
  lemma CascadeKeepsIncomingEdges(edges: seq<Edge>, id: int, b: int)
    ensures !Linked(DeleteAllByUser1(edges, id), id, b)
    ensures b != id ==> (Linked(DeleteAllByUser1(edges, id), b, id) <==> Linked(edges, b, id))
  {
    var r := DeleteAllByUser1(edges, id);
    if b != id && Linked(edges, b, id) {
      var e :| e in edges && e.user1 == b && e.user2 == id;
      assert e in r;
    }
  }

  /** Once no edge links `a` to `b`, a new subscription is what the lookup finds. */
  lemma SubscribeThenFind(edges: seq<Edge>, a: int, b: int)
    requires !Linked(edges, a, b)
    ensures FindEdge(edges + [Edge(a, b, Subscription)], a, b) == OneEdge(|edges|)
    ensures (edges + [Edge(a, b, Subscription)])[|edges|].status == Subscription
  {
    var s := edges + [Edge(a, b, Subscription)];
    forall j | 0 <= j < |edges| ensures !EdgeAt(s, j, a, b) {
      assert s[j] == edges[j] && edges[j] in edges;
    }
    assert EdgeAt(s, |edges|, a, b);
  }

  /**
   * Subscribing to a pair that is already linked stores a second row for it,
   * after which the single-result lookup fails for good: addFriend and
   * deleteSubscription on that pair then throw.
   */
  lemma {:induction false} ResubscribeBreaksLookup(edges: seq<Edge>, a: int, b: int)
    requires Linked(edges, a, b)
    ensures FindEdge(edges + [Edge(a, b, Subscription)], a, b) == SeveralEdges
  {
    var s := edges + [Edge(a, b, Subscription)];
    var e :| e in edges && e.user1 == a && e.user2 == b;
    var i :| 0 <= i < |edges| && edges[i] == e;
    assert EdgeAt(s, i, a, b) && EdgeAt(s, |edges|, a, b);
  }

  /** Unsubscribing right after a first subscription restores the edge table. */
  lemma SubscribeThenUnsubscribe(edges: seq<Edge>, a: int, b: int)
    requires !Linked(edges, a, b)
    ensures var s := edges + [Edge(a, b, Subscription)];
            FindEdge(s, a, b).OneEdge? && RemoveAt(s, FindEdge(s, a, b).index) == edges
  {
    SubscribeThenFind(edges, a, b);
    RemoveLast(edges, Edge(a, b, Subscription));
  }

  /** No edge in `after` has FRIEND status unless `before` held it already. */
  predicate NoNewFriendships(before: seq<Edge>, after: seq<Edge>) {
    forall e :: e in after && e.status == Friend ==> e in before
  }

  /** Removing one edge adds no FRIEND edge. */
  lemma RemoveAddsNoFriendship(edges: seq<Edge>, k: nat)
    requires k < |edges|
    ensures NoNewFriendships(edges, RemoveAt(edges, k))
  {
    var r := RemoveAt(edges, k);
    forall e | e in r ensures e in edges {
      assert multiset(r)[e] > 0;
    }
  }

}
