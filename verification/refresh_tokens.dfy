/** The refresh-token table and `RefreshService`: saving a token replaces
    every earlier token of the same user, so each user holds at most one. */
module RefreshTokens {
  import opened Common
  import opened Users

  /** A stored refresh token and the account it belongs to. */
  datatype RefreshEntity = RefreshEntity(user: UserEntity, token: string)

  type Store = seq<RefreshEntity>

  predicate OwnedBy(username: string, e: RefreshEntity) {
    e.user.username == username
  }

  predicate HasToken(token: string, e: RefreshEntity) {
    e.token == token
  }

  /** At most one stored token per username. */
  predicate OnePerUser(store: Store) {
    forall i, j :: 0 <= i < j < |store| ==> store[i].user.username != store[j].user.username
  }

  /** `findByToken`: a single-result query, so two rows with the same token
      are an error. */
  function GetRefresh(store: Store, token: string): (r: Result<Option<RefreshEntity>>)
    ensures r == Ok(None) <==> Count(store, (e: RefreshEntity) => HasToken(token, e)) == 0
    ensures r.Err? <==> Count(store, (e: RefreshEntity) => HasToken(token, e)) > 1
    ensures r.Err? ==> r.error == NonUniqueResult
    ensures r.Ok? && r.value.Some? ==> r.value.value in store && r.value.value.token == token
  {
    var hits := Filter(store, (e: RefreshEntity) => HasToken(token, e));
    FilterCount(store, (e: RefreshEntity) => HasToken(token, e));
    if |hits| == 0 then Ok(None)
    else if |hits| == 1 then Ok(Some(hits[0]))
    else Err(NonUniqueResult)
  }

  /** `deleteByUserEntity_Username`. */
  function DeleteByUsername(store: Store, username: string): (r: Store)
    ensures forall i :: 0 <= i < |r| ==> r[i] in store && !OwnedBy(username, r[i])
    ensures forall i :: 0 <= i < |store| && !OwnedBy(username, store[i]) ==> store[i] in r
  {
    Filter(store, (e: RefreshEntity) => !OwnedBy(username, e))
  }

  /** `deleteRefresh(token)` (`deleteByToken`): every row carrying that
      token goes, every other row stays. */
  function DeleteRefresh(store: Store, token: string): (r: Store)
    ensures forall i :: 0 <= i < |r| ==> r[i] in store && r[i].token != token
    ensures forall i :: 0 <= i < |store| && store[i].token != token ==> store[i] in r
    ensures multiset(r) <= multiset(store)
  {
    Filter(store, (e: RefreshEntity) => !HasToken(token, e))
  }

  /** `saveRefresh(token)` for the user the token names: the user's earlier
      tokens are deleted and the new one is stored. An unknown user fails;
      the transaction then rolls the delete back and the table is
      unchanged. */
  function SaveRefresh(users: seq<UserEntity>, store: Store, username: string, token: string)
    : (r: Result<Store>)
    ensures r.Err? <==> FindByUsername(users, username).None?
    ensures r.Err? ==> r.error.NotFound?
    ensures r.Ok? ==>
      && |r.value| >= 1
      && r.value[|r.value| - 1] == RefreshEntity(FindByUsername(users, username).value, token)
      && r.value[..|r.value| - 1] == DeleteByUsername(store, username)
  {
    match FindByUsername(users, username)
    case None => Err(NotFound("user"))
    case Some(user) => Ok(DeleteByUsername(store, username) + [RefreshEntity(user, token)])
  }

  /** After a save the user holds exactly one token, the new one. */
  lemma {:induction false} SaveLeavesOneToken(users: seq<UserEntity>, store: Store, username: string, token: string)
    requires SaveRefresh(users, store, username, token).Ok?
    ensures var after := SaveRefresh(users, store, username, token).value;
      && Count(after, (e: RefreshEntity) => OwnedBy(username, e)) == 1
      && (forall i :: 0 <= i < |after| && OwnedBy(username, after[i]) ==> after[i].token == token)
  {
    var after := SaveRefresh(users, store, username, token).value;
    var kept := DeleteByUsername(store, username);
    CountNone(kept, (e: RefreshEntity) => OwnedBy(username, e));
    CountAppend(kept, [after[|after| - 1]], (e: RefreshEntity) => OwnedBy(username, e));
    assert after == kept + [after[|after| - 1]];
  }

  /** Saving keeps the one-token-per-user invariant. */
  lemma SavePreservesOnePerUser(users: seq<UserEntity>, store: Store, username: string, token: string)
    requires OnePerUser(store)
    requires SaveRefresh(users, store, username, token).Ok?
    ensures OnePerUser(SaveRefresh(users, store, username, token).value)
  {
    var after := SaveRefresh(users, store, username, token).value;
    var kept := DeleteByUsername(store, username);
    FilterKeepsOnePerUser(store, (e: RefreshEntity) => !OwnedBy(username, e));
    assert after == kept + [after[|after| - 1]];
    forall i, j | 0 <= i < j < |after| ensures after[i].user.username != after[j].user.username {
      if j == |after| - 1 {
        assert after[i] == kept[i];
      } else {
        assert after[i] == kept[i] && after[j] == kept[j];
      }
    }
  }

  /** Deleting a token keeps the invariant. */
  lemma DeletePreservesOnePerUser(store: Store, token: string)
    requires OnePerUser(store)
    ensures OnePerUser(DeleteRefresh(store, token))
  {
    FilterKeepsOnePerUser(store, (e: RefreshEntity) => !HasToken(token, e));
  }

  lemma {:induction false} FilterKeepsOnePerUser(store: Store, p: RefreshEntity -> bool)
    requires OnePerUser(store)
    ensures OnePerUser(Filter(store, p))
  {
    if store != [] {
      var rest := store[1..];
      assert OnePerUser(rest) by {
        forall i, j | 0 <= i < j < |rest| ensures rest[i].user.username != rest[j].user.username {
          assert rest[i] == store[i + 1] && rest[j] == store[j + 1];
        }
      }
      FilterKeepsOnePerUser(rest, p);
      if p(store[0]) {
        HeadNotRepeated(store, p);
        ConsOnePerUser(store[0], Filter(rest, p));
        assert Filter(store, p) == [store[0]] + Filter(rest, p);
      } else {
        assert Filter(store, p) == Filter(rest, p);
      }
    }
  }

  /** The head's user owns no row among the filtered tail. */
  lemma HeadNotRepeated(store: Store, p: RefreshEntity -> bool)
    requires OnePerUser(store) && store != []
    ensures forall k :: 0 <= k < |Filter(store[1..], p)| ==>
      Filter(store[1..], p)[k].user.username != store[0].user.username
  {
    var rest := store[1..];
    var f := Filter(rest, p);
    forall k | 0 <= k < |f| ensures f[k].user.username != store[0].user.username {
      var m :| 0 <= m < |rest| && rest[m] == f[k];
      assert store[m + 1] == f[k];
    }
  }

  lemma ConsOnePerUser(e: RefreshEntity, tail: Store)
    requires OnePerUser(tail)
    requires forall k :: 0 <= k < |tail| ==> tail[k].user.username != e.user.username
    ensures OnePerUser([e] + tail)
  {
    var s := [e] + tail;
    forall i, j | 0 <= i < j < |s| ensures s[i].user.username != s[j].user.username {
      assert s[j] == tail[j - 1];
      if i > 0 {
        assert s[i] == tail[i - 1];
      }
    }
  }

  /** Once saved, the token is found and names its user, provided no other
      user's row carries the same token. */
  lemma {:induction false} SaveThenGet(users: seq<UserEntity>, store: Store, username: string, token: string)
    requires SaveRefresh(users, store, username, token).Ok?
    requires forall i :: 0 <= i < |store| && store[i].token == token ==> OwnedBy(username, store[i])
    ensures GetRefresh(SaveRefresh(users, store, username, token).value, token)
            == Ok(Some(RefreshEntity(FindByUsername(users, username).value, token)))
  {
    var after := SaveRefresh(users, store, username, token).value;
    var kept := DeleteByUsername(store, username);
    assert after == kept + [after[|after| - 1]];
    assert forall i :: 0 <= i < |kept| ==> !HasToken(token, kept[i]);
    CountNone(kept, (e: RefreshEntity) => HasToken(token, e));
    CountAppend(kept, [after[|after| - 1]], (e: RefreshEntity) => HasToken(token, e));
    FilterSingle(after, (e: RefreshEntity) => HasToken(token, e));
  }

  /** When exactly the last element satisfies `p`, filtering yields it alone. */
  lemma {:induction false} FilterSingle<T>(xs: seq<T>, p: T -> bool)
    requires xs != [] && p(xs[|xs| - 1])
    requires forall i :: 0 <= i < |xs| - 1 ==> !p(xs[i])
    ensures Filter(xs, p) == [xs[|xs| - 1]]
  {
    if |xs| > 1 {
      FilterSingle(xs[1..], p);
    }
  }

  /** A deleted token is no longer found; other tokens are unaffected. */
  lemma {:induction false} DeleteThenGet(store: Store, token: string, other: string)
    requires other != token
    ensures GetRefresh(DeleteRefresh(store, token), token) == Ok(None)
    ensures GetRefresh(DeleteRefresh(store, token), other) == GetRefresh(store, other)
  {
    var after := DeleteRefresh(store, token);
    CountNone(after, (e: RefreshEntity) => HasToken(token, e));
    FilterOther(store, token, other);
  }

  /** Removing one token's rows leaves the rows of another token as they were. */
  lemma {:induction false} FilterOther(store: Store, token: string, other: string)
    requires other != token
    ensures Filter(DeleteRefresh(store, token), (e: RefreshEntity) => HasToken(other, e))
            == Filter(store, (e: RefreshEntity) => HasToken(other, e))
  {
    if store != [] {
      FilterOther(store[1..], token, other);
    }
  }
}
