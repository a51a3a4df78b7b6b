/** The account record (`UserEntity`) and its transfer object (`UserDTO`). */
module Users {
  import opened Common

  /** A stored account. The username is the login key and is never null here. */
  datatype UserEntity = UserEntity(
    id: Option<int>,
    provider: Option<string>,
    username: string,
    password: Option<string>,
    email: Option<string>,
    nickname: Option<string>,
    roles: Option<seq<string>>)

  datatype UserDto = UserDto(
    id: Option<int>,
    provider: Option<string>,
    username: string,
    password: Option<string>,
    email: Option<string>,
    nickname: Option<string>,
    roles: Option<seq<string>>)

  /** `UserDTO.from`: every field copied, a null role list becomes empty. */
  function FromEntity(e: UserEntity): (d: UserDto)
    ensures d.roles.Some?
    ensures e.roles.None? ==> d.roles == Some([])
    ensures ToEntity(d) == e.(roles := Some(e.roles.GetOr([])))
  {
    UserDto(e.id, e.provider, e.username, e.password, e.email, e.nickname,
            Some(e.roles.GetOr([])))
  }

  /** `UserDTO.toEntity`. */
  function ToEntity(d: UserDto): UserEntity {
    UserEntity(d.id, d.provider, d.username, d.password, d.email, d.nickname, d.roles)
  }

  /** Converting to a DTO and back restores the entity, except that a null role
      list comes back empty. */
  lemma EntityRoundTrip(e: UserEntity)
    ensures ToEntity(FromEntity(e)) == e.(roles := Some(e.roles.GetOr([])))
    ensures e.roles.Some? ==> ToEntity(FromEntity(e)) == e
  {
  }

  /** A DTO survives the trip through an entity exactly when its role list is set. */
  lemma DtoRoundTrip(d: UserDto)
    ensures FromEntity(ToEntity(d)) == d <==> d.roles.Some?
  {
  }

  /** `UserRepository.findByUsername`: the first user with that name (the
      model takes usernames to be unique). */
  function FindByUsername(users: seq<UserEntity>, name: string): (r: Option<UserEntity>)
    ensures r.Some? ==> r.value in users && r.value.username == name
    ensures r.None? <==> forall i :: 0 <= i < |users| ==> users[i].username != name
  {
    if users == [] then None
    else if users[0].username == name then Some(users[0])
    else FindByUsername(users[1..], name)
  }

  /** The author check shared by reviews, comments and posts:
      `user != null && user.getUsername().equals(name)`. */
  predicate IsWrittenBy(author: Option<UserEntity>, name: string) {
    author.Some? && author.value.username == name
  }
}
