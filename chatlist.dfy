/** The list edits behind `/add_chat` and `/remove_chat` (otp_bot.py, lines 103-121):
    `append` after a membership check, and `list.remove`. */
module ChatList {

  predicate NoDuplicates<T(==)>(s: seq<T>) {
    forall i, j :: 0 <= i < j < |s| ==> s[i] != s[j]
  }

  /** The list `/add_chat` saves: unchanged when the id is already present,
      otherwise the id appended at the end. */
  function Register(ids: seq<string>, x: string): seq<string> {
    if x in ids then ids else ids + [x]
  }

  /** `list.remove(x)`, where the caller has checked `x in ids`: the first
      occurrence goes. */
  function RemoveFirst(ids: seq<string>, x: string): seq<string> {
    if ids == [] then []
    else if ids[0] == x then ids[1..]
    else [ids[0]] + RemoveFirst(ids[1..], x)
  }

  /** The position of the first occurrence. */
  function IndexOf(ids: seq<string>, x: string): (i: nat)
    requires x in ids
    ensures i < |ids| && ids[i] == x && x !in ids[..i]
  {
    if ids[0] == x then 0
    else
      var i := IndexOf(ids[1..], x);
      assert ids[..i + 1] == [ids[0]] + ids[1..][..i];
      i + 1
  }

  /** After registering, the id is present, nothing was lost, and at most the one
      id was added. */
  lemma RegisterSpec(ids: seq<string>, x: string)
    ensures x in Register(ids, x)
    ensures multiset(Register(ids, x)) == if x in ids then multiset(ids) else multiset(ids) + multiset{x}
    ensures NoDuplicates(ids) ==> NoDuplicates(Register(ids, x))
  {
  }

  /** Removal deletes exactly the first occurrence and keeps the order of the rest. */
  lemma {:induction false} RemoveFirstAt(ids: seq<string>, x: string)
    requires x in ids
    ensures RemoveFirst(ids, x) == ids[..IndexOf(ids, x)] + ids[IndexOf(ids, x) + 1..]
  {
    if ids[0] != x {
      RemoveFirstAt(ids[1..], x);
      var i := IndexOf(ids[1..], x);
      assert ids[1..][..i] == ids[1..i + 1];
      assert ids[..i + 1] == [ids[0]] + ids[1..i + 1];
      assert ids[1..][i + 1..] == ids[i + 2..];
    }
  }

  /** Removing an absent id changes nothing. */
  lemma {:induction false} RemoveAbsent(ids: seq<string>, x: string)
    requires x !in ids
    ensures RemoveFirst(ids, x) == ids
  {
    if ids != [] {
      assert ids[1..] + [] == ids[1..] && x !in ids[1..];
      RemoveAbsent(ids[1..], x);
    }
  }

  /** Removal takes one copy of the id away and leaves every other id as it was. */
  lemma {:induction false} RemoveFirstMultiset(ids: seq<string>, x: string)
    ensures multiset(RemoveFirst(ids, x)) == multiset(ids) - multiset{x}
  {
    if ids != [] {
      assert ids == [ids[0]] + ids[1..];
      RemoveFirstMultiset(ids[1..], x);
    }
  }

  /** In a duplicate-free list, removal leaves no copy of the id and no duplicate. */
  lemma RemoveKeepsNoDuplicates(ids: seq<string>, x: string)
    requires NoDuplicates(ids)
    ensures x !in RemoveFirst(ids, x) && NoDuplicates(RemoveFirst(ids, x))
  {
    if x in ids {
      RemoveFirstAt(ids, x);
      var i := IndexOf(ids, x);
      var r := RemoveFirst(ids, x);
      forall a | 0 <= a < |r| ensures r[a] == (if a < i then ids[a] else ids[a + 1]) {
      }
    } else {
      RemoveAbsent(ids, x);
    }
  }
}
