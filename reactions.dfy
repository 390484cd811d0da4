/**
 * The three-way reaction toggle of `reactToMessage`
 * (chat-backend/socket/socketHandlers.js:237-253): the reactor's existing
 * reaction is found with `findIndex`; none means a new reaction is pushed,
 * the same emoji means it is spliced out, a different emoji means its
 * emoji is overwritten in place.
 */
module Reactions {
  import opened Models

  /** `message.reactions.findIndex(r => r.user.equals(user))`. */
  function ReactionIndex(rs: seq<Reaction>, user: UserId): (i: int)
    ensures -1 <= i < |rs|
    ensures i == -1 <==> forall k :: 0 <= k < |rs| ==> rs[k].user != user
    ensures 0 <= i ==> rs[i].user == user && forall k :: 0 <= k < i ==> rs[k].user != user
  {
    FirstIndex(rs, (r: Reaction) => r.user == user)
  }

  /** The emoji a user currently shows on the message, if any. */
  function ReactionOf(rs: seq<Reaction>, user: UserId): Option<string> {
    var i := ReactionIndex(rs, user);
    if i == -1 then None else Some(rs[i].emoji)
  }

  /** The reactions of everybody but `user`, in order. */
  function OthersOf(rs: seq<Reaction>, user: UserId): seq<Reaction> {
    if rs == [] then []
    else (if rs[0].user == user then [] else [rs[0]]) + OthersOf(rs[1..], user)
  }

  function Toggle(rs: seq<Reaction>, user: UserId, userName: string, emoji: string): seq<Reaction> {
    var i := ReactionIndex(rs, user);
    if i > -1 then
      if rs[i].emoji == emoji then rs[..i] + rs[i + 1..]
      else rs[i := rs[i].(emoji := emoji)]
    else
      rs + [Reaction(emoji, user, userName)]
  }

  /** The three branches: a user without a reaction gets one appended at the
      end; the same emoji removes the user's entry, keeping the order of the
      rest; another emoji replaces the emoji at the same position. */
  lemma ToggleCases(rs: seq<Reaction>, user: UserId, userName: string, emoji: string)
    ensures ReactionOf(rs, user) == None ==>
              Toggle(rs, user, userName, emoji) == rs + [Reaction(emoji, user, userName)]
    ensures ReactionOf(rs, user) == Some(emoji) ==>
              var i := ReactionIndex(rs, user);
              |Toggle(rs, user, userName, emoji)| == |rs| - 1
              && (forall k :: 0 <= k < i ==> Toggle(rs, user, userName, emoji)[k] == rs[k])
              && (forall k :: i <= k < |rs| - 1 ==> Toggle(rs, user, userName, emoji)[k] == rs[k + 1])
    ensures ReactionOf(rs, user).Some? && ReactionOf(rs, user) != Some(emoji) ==>
              var i := ReactionIndex(rs, user);
              |Toggle(rs, user, userName, emoji)| == |rs|
              && Toggle(rs, user, userName, emoji)[i] == Reaction(emoji, user, rs[i].userName)
              && (forall k :: 0 <= k < |rs| && k != i ==> Toggle(rs, user, userName, emoji)[k] == rs[k])
  {
  }

  /** The toggle never touches anybody else's reactions, nor their order. */
  lemma {:induction false} OthersOfRemove(rs: seq<Reaction>, user: UserId, i: nat)
    requires i < |rs| && rs[i].user == user
    ensures OthersOf(rs[..i] + rs[i + 1..], user) == OthersOf(rs, user)
  {
    if i == 0 {
      assert rs[..i] + rs[i + 1..] == rs[1..];
    } else {
      OthersOfRemove(rs[1..], user, i - 1);
      assert rs[..i] + rs[i + 1..] == [rs[0]] + (rs[1..][..i - 1] + rs[1..][i..]);
    }
  }

  lemma {:induction false} OthersOfReplace(rs: seq<Reaction>, user: UserId, i: nat, r: Reaction)
    requires i < |rs| && rs[i].user == user && r.user == user
    ensures OthersOf(rs[i := r], user) == OthersOf(rs, user)
  {
    if i > 0 {
      OthersOfReplace(rs[1..], user, i - 1, r);
      assert rs[i := r] == [rs[0]] + rs[1..][i - 1 := r];
    }
  }

  lemma {:induction false} OthersOfAppend(rs: seq<Reaction>, user: UserId, r: Reaction)
    requires r.user == user
    ensures OthersOf(rs + [r], user) == OthersOf(rs, user)
  {
    if rs == [] {
      assert OthersOf([r], user) == [] + OthersOf([], user);
    } else {
      OthersOfAppend(rs[1..], user, r);
      assert (rs + [r])[1..] == rs[1..] + [r];
    }
  }

  lemma ToggleKeepsOthers(rs: seq<Reaction>, user: UserId, userName: string, emoji: string)
    ensures OthersOf(Toggle(rs, user, userName, emoji), user) == OthersOf(rs, user)
  {
    var i := ReactionIndex(rs, user);
    if i > -1 {
      if rs[i].emoji == emoji {
        OthersOfRemove(rs, user, i);
      } else {
        OthersOfReplace(rs, user, i, rs[i].(emoji := emoji));
      }
    } else {
      OthersOfAppend(rs, user, Reaction(emoji, user, userName));
    }
  }

  /** The toggle as a state machine on the user's own emoji: reacting with
      the emoji the user shows takes it away, any other reaction leaves the
      user showing exactly the new emoji; and at most one reaction per user
      is kept. */
  lemma ToggleEffect(rs: seq<Reaction>, user: UserId, userName: string, emoji: string)
    requires UniqueReactors(rs)
    ensures UniqueReactors(Toggle(rs, user, userName, emoji))
    ensures ReactionOf(Toggle(rs, user, userName, emoji), user) ==
              if ReactionOf(rs, user) == Some(emoji) then None else Some(emoji)
  {
    var r := Toggle(rs, user, userName, emoji);
    var i := ReactionIndex(rs, user);
    if i > -1 {
      if rs[i].emoji == emoji {
        forall k | 0 <= k < |r| ensures r[k].user != user {
          if k >= i {
            assert r[k] == rs[k + 1];
          }
        }
      } else {
        assert r[i].user == user;
      }
    } else {
      assert r[|rs|].user == user;
    }
  }

  /** Reacting twice with the same emoji, from no reaction, restores the
      original list. */
  lemma ToggleTwiceRestores(rs: seq<Reaction>, user: UserId, userName: string, emoji: string)
    requires ReactionOf(rs, user) == None
    ensures Toggle(Toggle(rs, user, userName, emoji), user, userName, emoji) == rs
  {
    var r := rs + [Reaction(emoji, user, userName)];
    assert ReactionIndex(r, user) == |rs| by {
      assert r[|rs|].user == user;
    }
    assert r[..|rs|] == rs;
  }

  /** A user who reacts with one emoji and then another shows exactly one
      reaction, with the second emoji. */
  lemma ChangeOfMind(rs: seq<Reaction>, user: UserId, userName: string, first: string, second: string)
    requires UniqueReactors(rs) && ReactionOf(rs, user) == None && first != second
    ensures var r := Toggle(Toggle(rs, user, userName, first), user, userName, second);
            UniqueReactors(r) && ReactionOf(r, user) == Some(second)
  {
    ToggleEffect(rs, user, userName, first);
    ToggleEffect(Toggle(rs, user, userName, first), user, userName, second);
  }
}
