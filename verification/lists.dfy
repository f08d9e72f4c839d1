/** The intrusive lists of the kernel (lib/kernel/list.c) as sequences of the nodes between the two
    sentinels. */
module Lists {

  ghost predicate NoDup<T>(s: seq<T>)
  {
    forall i, j :: 0 <= i < j < |s| ==> s[i] != s[j]
  }

  /** ListRemove. */
  function Unlink<T(==)>(s: seq<T>, x: T): (r: seq<T>)
    requires x in s
    ensures |r| == |s| - 1
  {
    if s[0] == x then s[1..] else [s[0]] + Unlink(s[1..], x)
  }

  lemma {:induction false} UnlinkTakesOne<T>(s: seq<T>, x: T)
    requires x in s && NoDup(s)
    ensures NoDup(Unlink(s, x))
    ensures forall y :: y in Unlink(s, x) <==> y in s && y != x
  {
    var rest := s[1..];
    assert s == [s[0]] + rest;
    if s[0] != x {
      assert NoDup(rest) && s[0] !in rest;
      UnlinkTakesOne(rest, x);
      AppendNoDup(Unlink(rest, x), s[0]);
    }
  }

  /** It takes the element out of its place, and the others stay in order. */
  lemma {:induction false} UnlinkAt<T>(s: seq<T>, i: nat)
    requires i < |s| && NoDup(s)
    ensures Unlink(s, s[i]) == s[..i] + s[i + 1..]
  {
    if i > 0 {
      var x, rest := s[i], s[1..];
      assert rest[i - 1] == x && s[0] != x && NoDup(rest);
      UnlinkTail(s, x);
      hide NoDup, Unlink;
      UnlinkAt(rest, i - 1);
      assert s[..i] == [s[0]] + rest[..i - 1] && s[i + 1..] == rest[i..];
      Regroup(s[0], rest[..i - 1], rest[i..]);
    } else {
      assert s[..0] + s[1..] == s[1..];
    }
  }

  lemma UnlinkTail<T>(s: seq<T>, x: T)
    requires x in s && s[0] != x
    ensures x in s[1..] && Unlink(s, x) == [s[0]] + Unlink(s[1..], x)
  {
    assert s == [s[0]] + s[1..];
  }

  lemma Regroup<T>(x: T, a: seq<T>, b: seq<T>)
    ensures [x] + (a + b) == [x] + a + b
  {}

  lemma AppendNoDup<T>(s: seq<T>, x: T)
    requires NoDup(s) && x !in s
    ensures NoDup(s + [x]) && NoDup([x] + s)
    ensures forall y :: y in s + [x] <==> y in s || y == x
    ensures forall y :: y in [x] + s <==> y in s || y == x
  {}
}
