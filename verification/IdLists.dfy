/** Lists of numbered things, such as edges, jobs, requests and contexts. */
module IdLists {
  function Without(list: seq<nat>, c: nat): seq<nat> {
    if list == [] then [] else if list[0] == c then list[1..] else [list[0]] + Without(list[1..], c)
  }

  ghost predicate NoDup(list: seq<nat>) {
    list == [] || (list[0] !in list[1..] && NoDup(list[1..]))
  }

  lemma {:induction false} NoDupAt(list: seq<nat>, i: nat, j: nat)
    requires NoDup(list) && i < j < |list|
    ensures list[i] != list[j]
  {
    if i == 0 {
      assert list[1..][j - 1] == list[j];
    } else {
      NoDupAt(list[1..], i - 1, j - 1);
    }
  }

  lemma {:induction false} WithoutList(list: seq<nat>, c: nat)
    requires NoDup(list)
    ensures NoDup(Without(list, c)) && forall e :: e in Without(list, c) <==> e in list && e != c
  {
    if list != [] {
      WithoutList(list[1..], c);
      assert forall e :: e in list <==> e == list[0] || e in list[1..];
    }
  }

  lemma NoDupCons(c: nat, rest: seq<nat>)
    requires NoDup(rest) && c !in rest
    ensures NoDup([c] + rest) && forall e :: e in [c] + rest <==> e == c || e in rest
  {
    assert ([c] + rest)[1..] == rest;
  }

  lemma {:induction false} NoDupSnoc(list: seq<nat>, c: nat)
    requires NoDup(list) && c !in list
    ensures NoDup(list + [c]) && forall e :: e in list + [c] <==> e in list || e == c
  {
    if list != [] {
      NoDupSnoc(list[1..], c);
      assert (list + [c])[1..] == list[1..] + [c];
    }
  }

  lemma {:induction false} NoDupTake(list: seq<nat>, k: nat)
    requires NoDup(list) && k <= |list|
    ensures NoDup(list[..k])
  {
    if k > 0 {
      NoDupTake(list[1..], k - 1);
      var (a, rest) := (list[0], list[1..][..k - 1]);
      assert list[..k] == [a] + rest;
      assert forall e :: e in rest ==> e in list[1..];
      NoDupCons(a, rest);
    }
  }

  lemma {:induction false} NoDupDrop(list: seq<nat>, k: nat)
    requires NoDup(list) && k <= |list|
    ensures NoDup(list[k..])
  {
    if k == 0 {
      assert list[0..] == list;
    } else {
      NoDupDrop(list[1..], k - 1);
      assert list[1..][k - 1..] == list[k..];
    }
  }
}
