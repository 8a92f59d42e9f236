# User service of the media backend, modelled in Dafny

This project models `UserServiceImpl`, the service of a social-media backend. It reads and updates
user profiles, deletes accounts together with their relationships, sends friend invitations,
creates and removes subscriptions, and sets the avatar link. Everything the service depends on is
a field of one class, `UserService.UserServiceImpl`:

- `users`: the users table. Rows are kept in insertion order, and the `Valid()` invariant keeps at
  most one row per id. A lookup by id, login name or email returns the first matching row
  (`Repository.FindUser`).
- `edges`: the friend-edge table of `(user1, user2, status)` rows. `save(new Friend())` only
  appends, so the same pair can be stored twice. `findByUser1AndUser2` is a single-result query
  returning `Optional<Friend>`: it is empty when no row matches, gives the one matching row, and
  fails with a result-size exception (`NonUniqueResult`) when two rows match
  (`Repository.FindEdge`). Subscribing twice to the same user reaches that state
  (`Repository.ResubscribeBreaksLookup`), and from then on `addFriend` and `deleteSubscription`
  on that pair throw.
- `readers`: the ids of the users that own post-reading records.
- `mapper`: the entity/DTO converter. It is seen only through two function values that keep the id.
- `security`: the role and ownership checks, as two uninterpreted predicates.

Only explicit repository calls write to the tables: `save`, `delete`, `deleteById` and the
`deleteAll…` calls. Each method states its whole new state and its result for every path,
including every error path. Lookups fail with `ElemNotFound`, except `findEntityByEmail`, which
calls `Optional.get()` and so fails with `NoSuchElement`. The model fixes these behaviours exactly
as the code has them:

- The role and ownership checks build a `SecurityAccessException` and drop it. So no contract
  mentions `security`: results and new states are functions of the tables and arguments alone.
- `addFriend` sets `FRIEND` on the fetched copy of the edge and never saves it. The method has
  no `modifies` clause; the dropped copy is reported through a ghost out-parameter. No method ever adds a `FRIEND` edge to the table
  (`NoNewFriendships`).
- `messageOfFriend` appends to the fetched entity's list and never saves it. The table is left
  alone; the dropped copy is reported through a ghost out-parameter.
- `goFriend` looks up the invited user first. It then builds the invitation, and only after that
  looks up the inviter. An unknown inviter fails after the (unsaved) invitation and creates no edge.
- `deleteUser` removes only the edges whose `user1` is the caller. Edges that point at the caller
  stay (`Repository.CascadeKeepsIncomingEdges`).
- `updateUser` and `deleteUser` act on the row found by the principal's email. The id inside the
  DTO the caller sends is ignored.

The system is meant to behave otherwise in six places. The model follows the code in each:

- An edge should be unique per ordered pair, and creating a second one should be rejected. The
  code appends a duplicate, which then breaks the single-result lookup.
- `addFriend` should make the `FRIEND` status durable. The code changes a copy only.
- `messageOfFriend`, and so the invitation of `goFriend`, should reach the stored user. The code
  changes a copy only.
- A failed role or ownership check should reject the request. The code builds the exception and
  carries on.
- Deleting a user should remove every edge that names the user, in either position. The code
  removes only the edges the user starts.
- A failure while writing the avatar file should reach the caller. The code logs it and returns
  normally.

## Model

| member | source | states |
|---|---|---|
| `UserService.UserServiceImpl.constructor` | media/src/main/java/com/igr/media/service/impl/UserServiceImpl.java:50-56 | The service starts over the given tables, mapper and security service, with the invariant established |
| `UserService.UserServiceImpl.GetByLogin` | media/src/main/java/com/igr/media/service/impl/UserServiceImpl.java:58-60 | Succeeds iff some row has that login name, and then returns the first such row; otherwise fails with ElemNotFound |
| `UserService.UserServiceImpl.GetUser` | media/src/main/java/com/igr/media/service/impl/UserServiceImpl.java:65-71 | Succeeds iff some row has the principal's email, and returns the mapped DTO of that row; otherwise fails with NoSuchElement; the role check's result plays no part |
| `UserService.UserServiceImpl.UpdateUser` | media/src/main/java/com/igr/media/service/impl/UserServiceImpl.java:77-87 | An unknown email gives ElemNotFound with the table unchanged. Otherwise the returned DTO is the input with the caller's own id. The saved row carries that id, a lookup by it finds the saved row, and every other row is kept |
| `UserService.UserServiceImpl.DeleteUser` | media/src/main/java/com/igr/media/service/impl/UserServiceImpl.java:92-101 | An unknown email gives ElemNotFound with nothing changed. Otherwise the caller's row, the edges with user1 equal to the caller's id and the caller's reading records are removed, whatever id the DTO holds. No FRIEND edge appears |
| `UserService.UserServiceImpl.UpdateUserImage` | media/src/main/java/com/igr/media/service/impl/UserServiceImpl.java:116-155 | An unknown email gives NoSuchElement. A failed removal of the old file or a failed directory step gives IOFailure. A failure inside the stream block returns normally. In all three cases the table is unchanged. Only when the streams open and the transfer returns is the row saved, with its image set to "/users/" followed by the id |
| `UserService.UserServiceImpl.FindById` | media/src/main/java/com/igr/media/service/impl/UserServiceImpl.java:182-186 | Succeeds iff some row has the id, and returns that row's DTO, which carries the same id; otherwise fails with ElemNotFound; the role check's result plays no part |
| `UserService.UserServiceImpl.MessageOfFriend` | media/src/main/java/com/igr/media/service/impl/UserServiceImpl.java:197-202 | An unknown id gives ElemNotFound. Otherwise the dropped copy is the stored row with the message appended at the end of its list and no other field changed. The table itself is not written |
| `UserService.UserServiceImpl.GoFriend` | media/src/main/java/com/igr/media/service/impl/UserServiceImpl.java:211-223 | An unknown invited name gives ElemNotFound: no invitation and no edge. An unknown inviter gives ElemNotFound after the invitation went to the unsaved copy, and no edge. Otherwise exactly one SUBSCRIPTION edge from inviter to invited is appended |
| `UserService.UserServiceImpl.AddFriend` | media/src/main/java/com/igr/media/service/impl/UserServiceImpl.java:231-238 | A missing user id, friend name or edge, checked in that order, gives ElemNotFound; two stored edges for the pair give NonUniqueResult. Otherwise it returns normally, and the dropped copy is the pair's one stored edge with status FRIEND; the edge table is not written |
| `UserService.UserServiceImpl.AddSubscription` | media/src/main/java/com/igr/media/service/impl/UserServiceImpl.java:246-255 | An unknown caller email gives NoSuchElement; this is checked first. An unknown target name gives ElemNotFound. Both leave the edges unchanged. Otherwise exactly one edge (caller id, target id, SUBSCRIPTION) is appended |
| `UserService.UserServiceImpl.DeleteSubscription` | media/src/main/java/com/igr/media/service/impl/UserServiceImpl.java:263-269 | An unknown caller gives NoSuchElement. An unknown target or a missing edge gives ElemNotFound. Two stored edges for the pair give NonUniqueResult. All of these leave the edges unchanged. Otherwise the pair's one edge is removed by its position, the table shrinks by one and no FRIEND edge appears |
| `UserService.UserServiceImpl.FindEntityByEmail` | media/src/main/java/com/igr/media/service/impl/UserServiceImpl.java:276-279 | Succeeds iff some row has the email, and returns the first such row; otherwise fails with NoSuchElement, not ElemNotFound |
| `Repository.FindUser` | media/src/main/java/com/igr/media/service/impl/UserServiceImpl.java:59 | A found row is in the table and matches the key; nothing is found iff no row matches |
| `Repository.FindUserIsFirst` | media/src/main/java/com/igr/media/service/impl/UserServiceImpl.java:59 | The row a lookup returns has no matching row before it |
| `Repository.FindByIdOfRow` | media/src/main/java/com/igr/media/service/impl/UserServiceImpl.java:212-214 | With unique ids, looking up a row's id finds exactly that row (so messageOfFriend reaches the user goFriend just found) |
| `Repository.SaveUser` | media/src/main/java/com/igr/media/service/impl/UserServiceImpl.java:84 | The saved entity is in the table; every other row comes from the old table with a different id; every old row with a different id is kept; unique ids stay unique |
| `Repository.SaveThenFindById` | media/src/main/java/com/igr/media/service/impl/UserServiceImpl.java:149 | After a save, the lookup by the saved id returns the saved entity |
| `Repository.DeleteById` | media/src/main/java/com/igr/media/service/impl/UserServiceImpl.java:97 | Exactly the rows with other ids stay, each as often as before; unique ids stay unique |
| `Repository.FilterKeepsDistinctIds` | media/src/main/java/com/igr/media/service/impl/UserServiceImpl.java:97 | Removing rows never makes two rows share an id |
| `Repository.FindEdge` | media/src/main/java/com/igr/media/service/impl/UserServiceImpl.java:267 | A found index holds an edge from user1 to user2 and no other row does; nothing is found iff no edge links the pair; the result-size failure occurs iff two rows link it |
| `Repository.DeleteAllByUser1` | media/src/main/java/com/igr/media/service/impl/UserServiceImpl.java:99 | An edge survives iff its user1 is not the id, and each survivor keeps its multiplicity |
| `Repository.CascadeKeepsIncomingEdges` | media/src/main/java/com/igr/media/service/impl/UserServiceImpl.java:99 | After the cascade no edge leaves the deleted id, but every other user's edge to it is still there |
| `Repository.SubscribeThenFind` | media/src/main/java/com/igr/media/service/impl/UserServiceImpl.java:250-254 | For a pair not yet linked, the lookup after a subscription finds the new SUBSCRIPTION edge as the pair's only row |
| `Repository.ResubscribeBreaksLookup` | media/src/main/java/com/igr/media/service/impl/UserServiceImpl.java:250-254 | Subscribing to a pair that is already linked makes the later lookup for that pair fail with the result-size error |
| `Repository.SubscribeThenUnsubscribe` | media/src/main/java/com/igr/media/service/impl/UserServiceImpl.java:263-269 | For a pair not yet linked, deleting the edge found after a subscription restores the old edge table |
| `Repository.RemoveAddsNoFriendship` | media/src/main/java/com/igr/media/service/impl/UserServiceImpl.java:268 | Deleting an edge adds no FRIEND edge |
| `Seqs.FirstIndex` | media/src/main/java/com/igr/media/service/impl/UserServiceImpl.java:235 | The index returned is the first whose element satisfies the predicate; none is returned iff no element does |
| `Seqs.Filter` | media/src/main/java/com/igr/media/service/impl/UserServiceImpl.java:99 | Each accepted element keeps its multiplicity, each rejected one is gone |
| `Seqs.RemoveAt` | media/src/main/java/com/igr/media/service/impl/UserServiceImpl.java:268 | One element fewer; the multiset loses exactly the removed element; the others keep their order |
| `Seqs.RemoveLast` | media/src/main/java/com/igr/media/service/impl/UserServiceImpl.java:254 | Removing the element just appended gives the old sequence back |
| `Links.NatToString` | media/src/main/java/com/igr/media/service/impl/UserServiceImpl.java:121-123 | The decimal form of a natural number: at least one character, digits only, starting with '0' iff the number is 0, and no leading zero when longer than one digit |
| `Links.IntToString` | media/src/main/java/com/igr/media/service/impl/UserServiceImpl.java:121-123 | Java's decimal form of an int: a leading '-' exactly for negative numbers, followed by at least one digit and nothing else, starting with '0' iff the number is 0, and no leading zero otherwise |
| `Links.ParseNatToString` | media/src/main/java/com/igr/media/service/impl/UserServiceImpl.java:121 | The decimal form of a natural number reads back as that number |
| `Links.IntToStringRoundTrip` | media/src/main/java/com/igr/media/service/impl/UserServiceImpl.java:121 | Java's decimal form of an int, sign included, reads back as that int |
| `Links.ImageLink` | media/src/main/java/com/igr/media/service/impl/UserServiceImpl.java:121 | The link starts with "/users/" and the rest is the id's decimal form |
| `Links.ImageLinkInjective` | media/src/main/java/com/igr/media/service/impl/UserServiceImpl.java:121 | Two users get the same avatar link iff they have the same id |
| `Links.InvitationText` | media/src/main/java/com/igr/media/service/impl/UserServiceImpl.java:214 | The text is as long as the fixed prefix, the name and the fixed suffix together |
| `Links.InvitationNamesInviter` | media/src/main/java/com/igr/media/service/impl/UserServiceImpl.java:214 | The text is "Пользователь :", then the inviter's name verbatim, then "приглашает вас в друзья." (with no space before it) |
| `Links.InvitationInjective` | media/src/main/java/com/igr/media/service/impl/UserServiceImpl.java:214 | Two invitations are equal iff they name the same inviter |

## Left out

- `getPhotoById` (media/src/main/java/com/igr/media/service/impl/UserServiceImpl.java:163-173) is left out. It only reads a file, which is filesystem I/O.
- The filesystem work in `updateUserImage` is left out: the photo path under the configured directory, deleting and creating files, and copying the bytes. `UpdateUserImage` instead takes the outcome of each step as a `FileOps` argument, so the uploaded bytes are not a parameter.
- `setPassword` is left out. It is a stub that returns null.
- Logging (`log.info`, `FormLogInfo`) is left out.
- The internals of `SecurityService` and `UserMapper` are left out, because that code is not part of this model. The DTO's fields other than its id are assumed; the DTO declaration is not part of this model.
- JPA persistence-context semantics are left out. An entity changed through a setter and never saved does not reach the table, even though dirty checking inside a transaction could flush it. The repository interfaces, and any transaction annotations on them, are not part of this model.
- Repository.FindUser: returns the first matching row. If two rows shared a name or an email, the real derived query would throw a result-size exception; the model does not check name or email uniqueness, because that constraint is declared in an entity that is not part of this model.
- Repository.SaveUser: for an id not in the table it appends the row unchanged. JPA's merge would assign a generated id instead. No caller in this service reaches that case.
- UserService.UserServiceImpl.MessageOfFriend: models the message collection as a sequence that is never null. The entity declaration is not part of this model, so the possible NullPointerException on an uninitialised collection is not modelled.
- UserService.UserServiceImpl.GoFriend: the invitation is reported through a ghost out-parameter (`invited`). The Java method returns nothing, and the copy it changed is dropped.
- UserService.UserServiceImpl.MessageOfFriend: the changed copy is reported through a ghost out-parameter (`changed`). The Java method returns nothing.
- UserService.UserServiceImpl.AddFriend: the changed edge is reported through a ghost out-parameter (`changed`). The Java method returns nothing.
- UserService.UserServiceImpl.UpdateUserImage: `save` itself is assumed to succeed. A failure of `save` inside the stream block would be swallowed by the same `catch` and leave the table unchanged, but repository failures are not modelled. A failure while closing the streams after the save leaves the saved row, as in the model.
- Java's 32-bit `int` ids are modelled as unbounded integers. The service does no arithmetic on ids, and their decimal rendering is the same.
- Request concurrency is left out: races between concurrent edge updates and concurrent avatar writes. The framework manages request threads, and the service has no coordination code.
- `WebSecurityConfig` (the security filter chain, URL matching and password encoding) is left out. It is framework configuration.
