/** The entities, DTOs and error kinds the user service works with. */
module Entities {

  datatype Option<+T> = None | Some(value: T)

  /** The exceptions the service raises, as values. */
  datatype Error =
    | ElemNotFound        // the service's own "element not found" exception
    | NoSuchElement       // what Optional.get() throws on an empty Optional
    | IOFailure           // a RuntimeException wrapping a filesystem IOException
    | NonUniqueResult     // a single-result query that matched more than one row
    | SecurityAccess      // built by the access checks, never thrown

  /** The outcome of an operation that returns a value or throws. */
  datatype Result<+T> = Ok(value: T) | Err(error: Error)

  /** The outcome of a void operation: it returns normally or throws. */
  datatype Outcome = Done | Fail(error: Error)

  /** The status of a relationship edge. */
  datatype StatusFriend = Subscription | Friend

  /** A row of the relationship table: user1 follows or invites user2. */
  datatype Edge = Edge(user1: int, user2: int, status: StatusFriend)

  /** A row of the users table. `image` is the avatar link (null when None). */
  datatype UserEntity = UserEntity(
    id: int,
    name: string,
    email: string,
    image: Option<string>,
    message: seq<string>)

  /** The public view of a user, as the web layer sends and receives it. */
  datatype UserDto = UserDto(id: int, name: string, email: string, image: Option<string>)

  /** The authenticated principal of a request; its name is the user's email. */
  datatype Authentication = Authentication(name: string)

  /** The entity/DTO converter, seen only through its two conversions. */
  datatype UserMapper = UserMapper(toDto: UserEntity -> UserDto, toEntity: UserDto -> UserEntity)

  /** The one property of the converter the service relies on: both directions keep the id. */
  ghost predicate IdPreserving(m: UserMapper) {
    && (forall e :: m.toDto(e).id == e.id)
    && (forall d :: m.toEntity(d).id == d.id)
  }

  /** The role and ownership checks, as uninterpreted predicates. */
  datatype SecurityService = SecurityService(
    checkAuthorRole: Authentication -> bool,
    isAuthorAuthenticated: (int, Authentication) -> bool)

  /** How each filesystem step of an avatar upload turns out. */
  datatype FileOps = FileOps(
    oldFileRemoved: bool,   // deleteIfExists of the previous avatar, when one is set
    directoryReady: bool,   // createDirectories of the parent and deleteIfExists of the path
    copied: bool)           // the streams opened with CREATE_NEW, the transfer returned and the save was reached
}
