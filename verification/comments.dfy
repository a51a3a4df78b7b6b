/** A comment on a community post (`CommentEntity`): an editable body, a
    one-way soft delete, the author check and the persistence hooks. */
module Comments {
  import opened Common
  import opened Users

  datatype Comment = Comment(
    id: Option<int>,
    postId: int,
    author: Option<UserEntity>,
    content: Option<string>,
    isDeleted: bool,
    createdAt: Option<int>,
    updatedAt: Option<int>)

  /** The builder: a new comment has no id, no timestamps and is live. */
  function NewComment(postId: int, author: Option<UserEntity>, content: Option<string>): (c: Comment)
    ensures !c.isDeleted && c.id.None? && c.createdAt.None? && c.updatedAt.None?
    ensures c.postId == postId && c.author == author && c.content == content
  {
    Comment(None, postId, author, content, false, None, None)
  }

  /** `@PrePersist onCreate`: both timestamps become `now`, whatever they held. */
  function OnCreate(c: Comment, now: int): (c': Comment)
    ensures c'.createdAt == Some(now) && c'.updatedAt == Some(now)
    ensures c'.(createdAt := c.createdAt, updatedAt := c.updatedAt) == c
  {
    c.(createdAt := Some(now), updatedAt := Some(now))
  }

  /** `@PreUpdate onUpdate`: only `updatedAt` moves. */
  function OnUpdate(c: Comment, now: int): (c': Comment)
    ensures c'.updatedAt == Some(now)
    ensures c'.(updatedAt := c.updatedAt) == c
  {
    c.(updatedAt := Some(now))
  }

  /** Once persisted, later updates never move the creation time. */
  lemma CreatedAtSurvivesUpdates(c: Comment, t0: int, t1: int)
    ensures OnUpdate(OnCreate(c, t0), t1).createdAt == Some(t0)
    ensures OnUpdate(OnCreate(c, t0), t1).updatedAt == Some(t1)
  {
  }

  /** `update(content)`: the body is replaced and nothing else. */
  function Update(c: Comment, content: Option<string>): (c': Comment)
    ensures c'.content == content
    ensures c'.(content := c.content) == c
  {
    c.(content := content)
  }

  /** `softDelete`: refused on a comment that is already deleted. */
  function SoftDelete(c: Comment): (r: Result<Comment>)
    ensures r.Err? <==> c.isDeleted
    ensures r.Err? ==> r.error == AlreadyDeleted
    ensures r.Ok? ==> r.value == c.(isDeleted := true)
  {
    if c.isDeleted then Err(AlreadyDeleted) else Ok(c.(isDeleted := true))
  }

  /** Soft delete succeeds exactly once. */
  lemma SoftDeleteOnce(c: Comment)
    requires !c.isDeleted
    ensures SoftDelete(c).Ok?
    ensures SoftDelete(SoftDelete(c).value) == Err(AlreadyDeleted)
  {
  }

  /** `isWrittenBy(username)`. */
  predicate WrittenBy(c: Comment, username: string) {
    IsWrittenBy(c.author, username)
  }

  /** The author check holds exactly for the author's username, and a
      comment without a user has no author. */
  lemma WrittenByIff(c: Comment, username: string)
    ensures WrittenBy(c, username) <==> c.author.Some? && c.author.value.username == username
    ensures c.author.None? ==> !WrittenBy(c, username)
  {
  }

  /** Neither editing nor deleting changes who wrote a comment. */
  lemma AuthorshipIsStable(c: Comment, content: Option<string>, username: string)
    ensures WrittenBy(Update(c, content), username) == WrittenBy(c, username)
    ensures SoftDelete(c).Ok? ==> WrittenBy(SoftDelete(c).value, username) == WrittenBy(c, username)
  {
  }
}
