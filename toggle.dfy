/** The like and bookmark toggles: a list of account ids where one request adds the
    caller when absent (push) and removes it when present (filter). */
module Toggle {
  import opened Common
  import opened Seqs

  datatype Toggled = Toggled(list: seq<Id>, on: bool)

  /** list.filter(id => id !== who) */
  function Without(list: seq<Id>, who: Id): seq<Id> {
    Filter(Other(who), list)
  }

  function Other(who: Id): Id -> bool {
    x => x != who
  }

  lemma {:induction false} NoDupCount(s: seq<Id>, x: Id)
    requires NoDup(s) && x in s
    ensures multiset(s)[x] == 1
    decreases |s|
  {
    NoDupTail(s);
    assert s == [s[0]] + s[1..];
    if s[0] != x {
      NoDupCount(s[1..], x);
    }
  }

  lemma NoDupTail(s: seq<Id>)
    requires NoDup(s) && s != []
    ensures NoDup(s[1..]) && s[0] !in s[1..]
  {
    var tail := s[1..];
    forall i, j | 0 <= i < j < |tail| ensures tail[i] != tail[j] {
      assert tail[i] == s[i + 1] && tail[j] == s[j + 1];
    }
    forall k | 0 <= k < |tail| ensures tail[k] != s[0] {
      assert tail[k] == s[k + 1];
    }
  }

  lemma {:induction false} FilterKeepsNoDup(p: Id -> bool, s: seq<Id>)
    requires NoDup(s)
    ensures NoDup(Filter(p, s))
    decreases |s|
  {
    if s != [] {
      NoDupTail(s);
      FilterKeepsNoDup(p, s[1..]);
      var rest := Filter(p, s[1..]);
      if p(s[0]) {
        var r := [s[0]] + rest;
        assert Filter(p, s) == r;
        assert s[0] !in rest;
        forall i, j | 0 <= i < j < |r| ensures r[i] != r[j] {
          assert r[j] == rest[j - 1] && rest[j - 1] in rest;
          if i > 0 {
            assert r[i] == rest[i - 1];
          }
        }
      }
    }
  }

  lemma {:induction false} RemoveFromNoDup(list: seq<Id>, who: Id)
    requires who in list
    ensures NoDup(list) ==> NoDup(Without(list, who))
    ensures NoDup(list) ==> |Without(list, who)| == |list| - 1
    decreases |list|
  {
    if NoDup(list) {
      FilterKeepsNoDup(Other(who), list);
      assert NoDup(list[1..]);
      if list[0] == who {
        assert who !in list[1..];
        FilterAll(Other(who), list[1..]);
      } else {
        RemoveFromNoDup(list[1..], who);
      }
    }
  }

  lemma RemoveKeepsOthers(list: seq<Id>, who: Id)
    ensures forall x :: multiset(Without(list, who))[x] == if x != who then multiset(list)[x] else 0
  {
    forall x ensures multiset(Without(list, who))[x] == if x != who then multiset(list)[x] else 0 {
      FilterCount(Other(who), list, x);
    }
  }

  /** Toggle who in list: the flag is the negation of the prior membership, exactly who's
      membership flips, and a duplicate-free list stays duplicate-free with its length
      moved by one. */
  function Toggle(list: seq<Id>, who: Id): (t: Toggled)
    ensures t.on <==> who !in list
    ensures who in t.list <==> t.on
    ensures forall x :: x != who ==> (x in t.list <==> x in list)
    ensures forall x :: x != who ==> multiset(t.list)[x] == multiset(list)[x]
    ensures NoDup(list) ==> NoDup(t.list)
    ensures NoDup(list) ==> |t.list| == if t.on then |list| + 1 else |list| - 1
  {
    if who in list then
      var kept := Without(list, who);
      RemoveFromNoDup(list, who);
      RemoveKeepsOthers(list, who);
      Toggled(kept, false)
    else
      Toggled(list + [who], true)
  }

  /** Toggling twice restores the membership of every account; when who was absent to
      begin with, the list itself comes back. */
  lemma {:induction false} ToggleTwice(list: seq<Id>, who: Id)
    ensures multiset(Toggle(Toggle(list, who).list, who).list)[who] == (if who in list then 1 else 0)
    ensures forall x :: x != who ==> multiset(Toggle(Toggle(list, who).list, who).list)[x] == multiset(list)[x]
    ensures who !in list ==> Toggle(Toggle(list, who).list, who).list == list
  {
    var once := Toggle(list, who);
    if who !in list {
      var back := Without(list + [who], who);
      FilterConcat(Other(who), list, [who]);
      FilterAll(Other(who), list);
      assert Without([who], who) == [];
      assert back == list;
    } else {
      assert once.list + [who] == Toggle(once.list, who).list;
      assert multiset(once.list)[who] == 0;
    }
  }

  /** For a duplicate-free list, toggling twice gives back the same set of accounts:
      the same multiset, so the same count. */
  lemma ToggleTwiceSameSet(list: seq<Id>, who: Id)
    requires NoDup(list)
    ensures multiset(Toggle(Toggle(list, who).list, who).list) == multiset(list)
  {
    ToggleTwice(list, who);
    if who in list {
      NoDupCount(list, who);
    }
    var twice := Toggle(Toggle(list, who).list, who).list;
    assert forall x :: multiset(twice)[x] == multiset(list)[x];
  }
}
