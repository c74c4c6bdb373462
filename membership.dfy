/** Membership by key and the two set differences UpdateProject computes:
    the desired bindings that are new, and the fetched bindings that are stale. */
module Membership {
  import opened Types
  import Seqs

  /** Some member of `members` compares equal to `target` (ids ignored). */
  predicate HasKey(members: seq<Member>, target: Member) {
    exists i :: 0 <= i < |members| && Compare(members[i], target)
  }

  /** The identities of a sequence of members. */
  function Keys(members: seq<Member>): set<Key> {
    set m | m in members :: KeyOf(m)
  }

  lemma HasKeyIffKeyIn(members: seq<Member>, target: Member)
    ensures HasKey(members, target) <==> KeyOf(target) in Keys(members)
  {
    if KeyOf(target) in Keys(members) {
      var m :| m in members && KeyOf(m) == KeyOf(target);
      var i :| 0 <= i < |members| && members[i] == m;
      assert Compare(members[i], target);
    }
  }

  /** hasMember: a linear search with Compare. */
  method HasMember(members: seq<Member>, target: Member) returns (found: bool)
    ensures found <==> exists i :: 0 <= i < |members| && Compare(members[i], target)
  {
    for i := 0 to |members|
      invariant forall j :: 0 <= j < i ==> !Compare(members[j], target)
    {
      if Compare(members[i], target) {
        return true;
      }
    }
    return false;
  }

  /** The members of `xs`, in their order, whose key has no match in `ys`. */
  function Missing(xs: seq<Member>, ys: seq<Member>): seq<Member> {
    Seqs.Filter(xs, m => !HasKey(ys, m))
  }

  /** Soundness and completeness: exactly the members of `xs` with no key match in `ys`. */
  lemma MissingIff(xs: seq<Member>, ys: seq<Member>, m: Member)
    ensures m in Missing(xs, ys) <==> m in xs && !HasKey(ys, m)
  {
    if m in xs && !HasKey(ys, m) {
      Seqs.FilterComplete(xs, m => !HasKey(ys, m), m);
    }
  }

  /** Order preservation: the difference of a concatenation is the concatenation of the differences. */
  lemma MissingConcat(a: seq<Member>, b: seq<Member>, ys: seq<Member>)
    ensures Missing(a + b, ys) == Missing(a, ys) + Missing(b, ys)
  {
    Seqs.FilterConcat(a, b, m => !HasKey(ys, m));
  }

  /** By key, the difference is the set difference of the key sets. */
  lemma MissingKeys(xs: seq<Member>, ys: seq<Member>)
    ensures Keys(Missing(xs, ys)) == Keys(xs) - Keys(ys)
  {
    forall k | k in Keys(Missing(xs, ys)) ensures k in Keys(xs) - Keys(ys) {
      var m :| m in Missing(xs, ys) && KeyOf(m) == k;
      MissingIff(xs, ys, m);
      HasKeyIffKeyIn(ys, m);
    }
    forall k | k in Keys(xs) - Keys(ys) ensures k in Keys(Missing(xs, ys)) {
      var m :| m in xs && KeyOf(m) == k;
      HasKeyIffKeyIn(ys, m);
      MissingIff(xs, ys, m);
    }
  }

  /** Nothing is missing exactly when every key of `xs` occurs in `ys`. */
  lemma MissingEmptyIff(xs: seq<Member>, ys: seq<Member>)
    ensures Missing(xs, ys) == [] <==> Keys(xs) <= Keys(ys)
  {
    MissingKeys(xs, ys);
    if Missing(xs, ys) != [] {
      assert KeyOf(Missing(xs, ys)[0]) in Keys(Missing(xs, ys));
    } else {
      assert Keys(Missing(xs, ys)) == {};
      forall k | k in Keys(xs) ensures k in Keys(ys) {
        assert k !in Keys(xs) - Keys(ys);
      }
    }
  }

  /** Equal key sets give an empty diff both ways: an update repeated with the
      same members issues no member calls. */
  lemma SameKeysNoDiff(desired: seq<Member>, fetched: seq<Member>)
    requires Keys(desired) == Keys(fetched)
    ensures Missing(desired, fetched) == [] && Missing(fetched, desired) == []
  {
    MissingEmptyIff(desired, fetched);
    MissingEmptyIff(fetched, desired);
  }

  /** A binding present on both sides, even under different ids, is neither added nor removed. */
  lemma MatchedBindingUntouched(desired: seq<Member>, fetched: seq<Member>, d: Member, f: Member)
    requires d in desired && f in fetched && Compare(d, f)
    ensures d !in Missing(desired, fetched) && f !in Missing(fetched, desired)
  {
    var i :| 0 <= i < |fetched| && fetched[i] == f;
    var j :| 0 <= j < |desired| && desired[j] == d;
    assert Compare(fetched[i], d) && Compare(desired[j], f);
    MissingIff(desired, fetched, d);
    MissingIff(fetched, desired, f);
  }

  /** The two filter loops of UpdateProject. */
  method DiffMembers(desired: seq<Member>, fetched: seq<Member>) returns (newMembers: seq<Member>, deletedMembers: seq<Member>)
    ensures newMembers == Missing(desired, fetched)
    ensures deletedMembers == Missing(fetched, desired)
  {
    newMembers := [];
    for i := 0 to |desired|
      invariant newMembers == Missing(desired[..i], fetched)
    {
      var known := HasMember(fetched, desired[i]);
      if !known {
        newMembers := newMembers + [desired[i]];
      }
      assert desired[..i + 1][..i] == desired[..i];
    }
    assert desired[..|desired|] == desired;
    deletedMembers := [];
    for i := 0 to |fetched|
      invariant deletedMembers == Missing(fetched[..i], desired)
    {
      var known := HasMember(desired, fetched[i]);
      if !known {
        deletedMembers := deletedMembers + [fetched[i]];
      }
      assert fetched[..i + 1][..i] == fetched[..i];
    }
    assert fetched[..|fetched|] == fetched;
  }
}
