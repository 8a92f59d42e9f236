/**
 * The user service: profile reads and updates, account deletion with its
 * cascade, invitations, subscriptions and the avatar link. The three tables
 * are fields of the service; the only writes to them are the repository's
 * save, delete and deleteAll calls, so an entity changed through a setter
 * and never saved leaves the tables as they were.
 */
module UserService {
  import opened Entities
  import opened Seqs
  import opened Repository
  import opened Links

  class UserServiceImpl {
    var users: seq<UserEntity>
    var edges: seq<Edge>
    var readers: set<int>
    const mapper: UserMapper
    const security: SecurityService

    /** Ids are the users table's key, and the mapper keeps them. */
    ghost predicate Valid()
      reads this
    {
      DistinctIds(users) && IdPreserving(mapper)
    }

    constructor (users0: seq<UserEntity>, edges0: seq<Edge>, readers0: set<int>,
                 mapper: UserMapper, security: SecurityService)
      requires DistinctIds(users0) && IdPreserving(mapper)
      ensures Valid()
      ensures users == users0 && edges == edges0 && readers == readers0
      ensures this.mapper == mapper && this.security == security
    {
      users, edges, readers := users0, edges0, readers0;
      this.mapper, this.security := mapper, security;
    }

    /** getByLogin: the user with that login name, or ElemNotFound. */
    method GetByLogin(login: string) returns (r: Result<UserEntity>)
      ensures r.Ok? <==> exists u :: u in users && u.name == login
      ensures r.Ok? ==> r.value == FindUser(users, ByName(login)).value
      ensures r.Err? ==> r.error == ElemNotFound
    {
      var found := FindUser(users, ByName(login));
      if found.None? {
        r := Err(ElemNotFound);
      } else {
        r := Ok(found.value);
      }
    }

    /** findEntityByEmail: Optional.get() on the lookup, so a missing email throws NoSuchElement. */
    method FindEntityByEmail(email: string) returns (r: Result<UserEntity>)
      ensures r.Ok? <==> exists u :: u in users && u.email == email
      ensures r.Ok? ==> r.value == FindUser(users, ByEmail(email)).value
      ensures r.Err? ==> r.error == NoSuchElement
    {
      var found := FindUser(users, ByEmail(email));
      if found.None? {
        r := Err(NoSuchElement);
      } else {
        r := Ok(found.value);
      }
    }

    /** getUser: the caller's own profile; the role check has no effect. */
    method GetUser(authentication: Authentication) returns (r: Result<UserDto>)
      ensures r.Ok? <==> exists u :: u in users && u.email == authentication.name
      ensures r.Ok? ==> r.value == mapper.toDto(FindUser(users, ByEmail(authentication.name)).value)
      ensures r.Err? ==> r.error == NoSuchElement
    {
      if !security.checkAuthorRole(authentication) {
        var denied := SecurityAccess;  // built and dropped: the check never blocks
      }
      var entity := FindEntityByEmail(authentication.name);
      if entity.Err? {
        r := Err(entity.error);
      } else {
        r := Ok(mapper.toDto(entity.value));
      }
    }

    /** findById: the profile with that id, or ElemNotFound; the role check has no effect. */
    method FindById(id: int, authentication: Authentication) returns (r: Result<UserDto>)
      requires Valid()
      ensures r.Ok? <==> exists u :: u in users && u.id == id
      ensures r.Ok? ==> r.value == mapper.toDto(FindUser(users, ById(id)).value) && r.value.id == id
      ensures r.Err? ==> r.error == ElemNotFound
    {
      if !security.checkAuthorRole(authentication) {
        var denied := SecurityAccess;  // built and dropped: the check never blocks
      }
      var found := FindUser(users, ById(id));
      if found.None? {
        r := Err(ElemNotFound);
      } else {
        r := Ok(mapper.toDto(found.value));
      }
    }

    /**
     * updateUser: the input's id is overwritten with the caller's own id before
     * the save, so only the caller's row is written, whatever id was sent.
     */
    method UpdateUser(newUserDto: UserDto, authentication: Authentication) returns (r: Result<UserDto>)
      requires Valid()
      modifies this`users
      ensures Valid()
      ensures var caller := FindUser(old(users), ByEmail(authentication.name));
              && (caller.None? ==> r == Err(ElemNotFound) && users == old(users))
              && (caller.Some? ==> r == Ok(newUserDto.(id := caller.value.id))
                                   && users == SaveUser(old(users), mapper.toEntity(r.value)))
      ensures r.Ok? ==> mapper.toEntity(r.value).id == FindUser(old(users), ByEmail(authentication.name)).value.id
      ensures r.Ok? ==> FindUser(users, ById(r.value.id)) == Some(mapper.toEntity(r.value))
      ensures forall u :: u in old(users) && (r.Err? || u.id != r.value.id) ==> u in users
      ensures forall u :: u in users ==> u in old(users) || (r.Ok? && u == mapper.toEntity(r.value))
    {
      if !security.checkAuthorRole(authentication)
         || !security.isAuthorAuthenticated(newUserDto.id, authentication) {
        var denied := SecurityAccess;  // built and dropped: the check never blocks
      }
      var user := FindUser(users, ByEmail(authentication.name));
      if user.None? {
        r := Err(ElemNotFound);
        return;
      }
      var dto := newUserDto.(id := user.value.id);
      users := SaveUser(users, mapper.toEntity(dto));
      SaveThenFindById(old(users), mapper.toEntity(dto));
      r := Ok(dto);
    }

    /**
     * deleteUser: removes the caller's row (whatever id the DTO carries), the
     * edges that start at the caller and the caller's reading records. Edges
     * that only end at the caller stay.
     */
    method DeleteUser(userDto: UserDto, authentication: Authentication) returns (r: Outcome)
      requires Valid()
      modifies this`users, this`edges, this`readers
      ensures Valid()
      ensures var caller := FindUser(old(users), ByEmail(authentication.name));
              && (caller.None? ==> r == Fail(ElemNotFound) && users == old(users)
                                   && edges == old(edges) && readers == old(readers))
              && (caller.Some? ==> r == Done
                                   && users == DeleteById(old(users), caller.value.id)
                                   && edges == DeleteAllByUser1(old(edges), caller.value.id)
                                   && readers == old(readers) - {caller.value.id})
      ensures NoNewFriendships(old(edges), edges)
    {
      if !security.checkAuthorRole(authentication)
         || !security.isAuthorAuthenticated(userDto.id, authentication) {
        var denied := SecurityAccess;  // built and dropped: the check never blocks
      }
      var user := FindUser(users, ByEmail(authentication.name));
      if user.None? {
        r := Fail(ElemNotFound);
        return;
      }
      var id := user.value.id;
      users := DeleteById(users, id);
      edges := DeleteAllByUser1(edges, id);
      readers := readers - {id};
      r := Done;
    }

    /**
     * messageOfFriend: the message is appended to the fetched entity's list and
     * the entity is never saved, so the tables are untouched. The Java method
     * returns nothing; `changed` is the changed, unsaved copy it drops.
     */
    method MessageOfFriend(id: int, message: string) returns (r: Outcome, ghost changed: Option<UserEntity>)
      ensures r.Fail? <==> FindUser(users, ById(id)).None?
      ensures r.Fail? ==> r.error == ElemNotFound && changed == None
      ensures r.Done? ==> var stored := FindUser(users, ById(id)).value;
                          && changed.Some?
                          && changed.value.message == stored.message + [message]
                          && changed.value == stored.(message := changed.value.message)
    {
      var found := FindUser(users, ById(id));
      if found.None? {
        r, changed := Fail(ElemNotFound), None;
        return;
      }
      var user := found.value;
      var messages := user.message + [message];
      user := user.(message := messages);
      r, changed := Done, Some(user);
    }

    /**
     * goFriend: looks up the invited user first, sends the invitation to the
     * unsaved copy, then looks up the inviter and saves a SUBSCRIPTION edge
     * from inviter to invited. `invited` is the copy the invitation went to.
     */
    method GoFriend(nameUser: string, nameFriends: string) returns (r: Outcome, ghost invited: Option<UserEntity>)
      requires Valid()
      modifies this`edges
      ensures Valid()
      ensures var target := FindUser(users, ByName(nameFriends));
              var inviter := FindUser(users, ByName(nameUser));
              && (target.None? ==> r == Fail(ElemNotFound) && invited == None && edges == old(edges))
              && (target.Some? ==> invited == Some(target.value.(message := target.value.message + [InvitationText(nameUser)])))
              && (target.Some? && inviter.None? ==> r == Fail(ElemNotFound) && edges == old(edges))
              && (target.Some? && inviter.Some? ==>
                    r == Done && edges == old(edges) + [Edge(inviter.value.id, target.value.id, Subscription)])
      ensures NoNewFriendships(old(edges), edges)
    {
      var friend := FindUser(users, ByName(nameFriends));
      if friend.None? {
        r, invited := Fail(ElemNotFound), None;
        return;
      }
      var idFriend := friend.value.id;
      FindByIdOfRow(users, friend.value);
      var sent;
      sent, invited := MessageOfFriend(idFriend, InvitationText(nameUser));
      var me := FindUser(users, ByName(nameUser));
      if me.None? {
        r := Fail(ElemNotFound);
        return;
      }
      edges := edges + [Edge(me.value.id, idFriend, Subscription)];
      r := Done;
    }

    /**
     * addFriend: requires the user, the named friend and the one edge between
     * them; the FRIEND status is set on the fetched copy only. Nothing is
     * saved, so the edge table keeps the old status. The Java method returns
     * nothing; `changed` is the changed copy it drops.
     */
    method AddFriend(userId: int, nameFriends: string) returns (r: Outcome, ghost changed: Option<Edge>)
      ensures var user := FindUser(users, ById(userId));
              var friend := FindUser(users, ByName(nameFriends));
              && (user.None? || friend.None? ==> r == Fail(ElemNotFound) && changed == None)
              && (user.Some? && friend.Some? ==>
                    var k := FindEdge(edges, userId, friend.value.id);
                    && (k.NoEdge? ==> r == Fail(ElemNotFound) && changed == None)
                    && (k.SeveralEdges? ==> r == Fail(NonUniqueResult) && changed == None)
                    && (k.OneEdge? ==> r == Done && changed == Some(edges[k.index].(status := Friend))))
      ensures r.Done? <==> && FindUser(users, ById(userId)).Some?
                           && FindUser(users, ByName(nameFriends)).Some?
                           && FindEdge(edges, userId, FindUser(users, ByName(nameFriends)).value.id).OneEdge?
      ensures r.Done? <==> changed.Some?
      ensures changed.Some? ==> && changed.value.user1 == userId && changed.value.status == Friend
                                && changed.value.user2 == FindUser(users, ByName(nameFriends)).value.id
                                && exists k :: 0 <= k < |edges| && changed.value == edges[k].(status := Friend)
    {
      var user := FindUser(users, ById(userId));
      if user.None? {
        r, changed := Fail(ElemNotFound), None;
        return;
      }
      var found := FindUser(users, ByName(nameFriends));
      if found.None? {
        r, changed := Fail(ElemNotFound), None;
        return;
      }
      var idFriend := found.value.id;
      var k := FindEdge(edges, userId, idFriend);
      if k.NoEdge? {
        r, changed := Fail(ElemNotFound), None;
        return;
      }
      if k.SeveralEdges? {
        r, changed := Fail(NonUniqueResult), None;
        return;
      }
      var friend := edges[k.index];
      friend := friend.(status := Friend);
      r, changed := Done, Some(friend);
    }

    /**
     * addSubscription: the caller (by email, NoSuchElement if absent) starts
     * following the named user (ElemNotFound if absent); one SUBSCRIPTION edge
     * is appended, with no check for an existing one.
     */
    method AddSubscription(nameUser: string, authentication: Authentication) returns (r: Outcome)
      requires Valid()
      modifies this`edges
      ensures Valid()
      ensures var caller := FindUser(users, ByEmail(authentication.name));
              var target := FindUser(users, ByName(nameUser));
              && (caller.None? ==> r == Fail(NoSuchElement) && edges == old(edges))
              && (caller.Some? && target.None? ==> r == Fail(ElemNotFound) && edges == old(edges))
              && (caller.Some? && target.Some? ==>
                    r == Done && edges == old(edges) + [Edge(caller.value.id, target.value.id, Subscription)])
      ensures NoNewFriendships(old(edges), edges)
    {
      var user := FindEntityByEmail(authentication.name);
      if user.Err? {
        r := Fail(user.error);
        return;
      }
      var found := FindUser(users, ByName(nameUser));
      if found.None? {
        r := Fail(ElemNotFound);
        return;
      }
      edges := edges + [Edge(user.value.id, found.value.id, Subscription)];
      r := Done;
    }

    /**
     * deleteSubscription: the caller stops following the named user; the one
     * edge the lookup finds is removed, ElemNotFound when there is none, and
     * the lookup's result-size failure when the pair is stored twice.
     */
    method DeleteSubscription(nameUser: string, authentication: Authentication) returns (r: Outcome)
      requires Valid()
      modifies this`edges
      ensures Valid()
      ensures var caller := FindUser(users, ByEmail(authentication.name));
              var target := FindUser(users, ByName(nameUser));
              && (caller.None? ==> r == Fail(NoSuchElement) && edges == old(edges))
              && (caller.Some? && target.None? ==> r == Fail(ElemNotFound) && edges == old(edges))
              && (caller.Some? && target.Some? ==>
                    var k := FindEdge(old(edges), caller.value.id, target.value.id);
                    && (k.NoEdge? ==> r == Fail(ElemNotFound) && edges == old(edges))
                    && (k.SeveralEdges? ==> r == Fail(NonUniqueResult) && edges == old(edges))
                    && (k.OneEdge? ==> r == Done && edges == RemoveAt(old(edges), k.index)))
      ensures r == Done ==> |edges| == |old(edges)| - 1 && NoNewFriendships(old(edges), edges)
    {
      var user := FindEntityByEmail(authentication.name);
      if user.Err? {
        r := Fail(user.error);
        return;
      }
      var found := FindUser(users, ByName(nameUser));
      if found.None? {
        r := Fail(ElemNotFound);
        return;
      }
      var k := FindEdge(edges, user.value.id, found.value.id);
      if k.NoEdge? {
        r := Fail(ElemNotFound);
        return;
      }
      if k.SeveralEdges? {
        r := Fail(NonUniqueResult);
        return;
      }
      RemoveAddsNoFriendship(edges, k.index);
      edges := RemoveAt(edges, k.index);
      r := Done;
    }

    /**
     * The avatar reference as updateUserImage leaves it. A failed removal of
     * the old file or of the directory step throws. The row is saved with the
     * link "/users/{id}" only once the streams are open and the transfer has
     * returned; any failure in that block is only logged.
     */
    method UpdateUserImage(authentication: Authentication, files: FileOps) returns (r: Outcome)
      requires Valid()
      modifies this`users
      ensures Valid()
      ensures var caller := FindUser(old(users), ByEmail(authentication.name));
              && (caller.None? ==> r == Fail(NoSuchElement) && users == old(users))
              && (caller.Some? && caller.value.image.Some? && !files.oldFileRemoved ==>
                    r == Fail(IOFailure) && users == old(users))
              && (caller.Some? && (caller.value.image.None? || files.oldFileRemoved) ==>
                    && (!files.directoryReady ==> r == Fail(IOFailure) && users == old(users))
                    && (files.directoryReady && !files.copied ==> r == Done && users == old(users))
                    && (files.directoryReady && files.copied ==>
                          r == Done && users == SaveUser(old(users), caller.value.(image := Some(ImageLink(caller.value.id))))))
      ensures users != old(users) ==>
                var saved := FindUser(old(users), ByEmail(authentication.name)).value;
                FindUser(users, ById(saved.id)).Some?
                && FindUser(users, ById(saved.id)).value.image == Some("/users/" + IntToString(saved.id))
    {
      var entity := FindEntityByEmail(authentication.name);
      if entity.Err? {
        r := Fail(entity.error);
        return;
      }
      var user := entity.value;
      var linkToGetImage := ImageLink(user.id);
      if user.image.Some? {
        if !files.oldFileRemoved {
          r := Fail(IOFailure);
          return;
        }
        user := user.(image := None);
      }
      if !files.directoryReady {
        r := Fail(IOFailure);
        return;
      }
      if files.copied {
        user := user.(image := Some(linkToGetImage));
        SaveThenFindById(users, user);
        users := SaveUser(users, user);
      }
      r := Done;
    }
  }
}
