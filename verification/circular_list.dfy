/**
  The fixed-arena circular doubly linked list of myList.cpp.

  A list element is an index into an arena of `prev`/`next` links and a
  `data` binding (node i points at payload slot i once initialised).
  `NIL` stands for the null pointer. A list is identified by its head
  index; `IsList(a, h, s)` says that the circular chain starting at `h`
  visits exactly the nodes of `s`, in order. Every operation is a method on
  an immutable arena value that takes the represented sequence as a ghost
  argument and promises the sequence it leaves behind, plus a frame: nodes
  outside the lists involved keep their links.
 */
module CircularList {

  /** The null pointer. */
  const NIL: int := -1

  datatype Arena = Arena(prev: seq<int>, next: seq<int>, data: seq<int>)
  {
    predicate WellSized() { |prev| == |next| == |data| }

    function Size(): nat { |next| }
  }

  /** 0, 1, ..., n-1 */
  function Range(n: nat): (s: seq<nat>)
    ensures |s| == n
    ensures forall i :: 0 <= i < n ==> s[i] == i
  {
    seq(n, i => i)
  }

  predicate Distinct(s: seq<nat>)
  {
    forall i, j :: 0 <= i < j < |s| ==> s[i] != s[j]
  }

  predicate Disjoint(s: seq<nat>, t: seq<nat>)
  {
    forall x :: x in s ==> x !in t
  }

  /** The element after position i, wrapping around. */
  function Succ(s: seq<nat>, i: nat): nat
    requires i < |s|
  {
    if i + 1 < |s| then s[i + 1] else s[0]
  }

  /** The element before position i, wrapping around. */
  function Pred(s: seq<nat>, i: nat): nat
    requires i < |s|
  {
    if i > 0 then s[i - 1] else s[|s| - 1]
  }

  /** The chain headed by `h` in arena `a` is the circular list `s`. */
  ghost predicate IsList(a: Arena, h: int, s: seq<nat>)
  {
    && a.WellSized()
    && Distinct(s)
    && (forall i :: 0 <= i < |s| ==> s[i] < a.Size())
    && h == (if |s| == 0 then NIL else s[0])
    && (forall i {:trigger a.next[s[i]]} :: 0 <= i < |s| ==> a.next[s[i]] == Succ(s, i))
    && (forall i {:trigger a.prev[s[i]]} :: 0 <= i < |s| ==> a.prev[s[i]] == Pred(s, i))
  }

  /**
    The pointer discipline of a well-formed list: each member's `prev` and
    `next` are members again, and following one link and then the other
    leads back to where it started.
   */
  lemma LinksInverse(a: Arena, h: int, s: seq<nat>, i: nat)
    requires IsList(a, h, s) && i < |s|
    ensures a.prev[s[i]] in s && a.next[s[i]] in s
    ensures 0 <= a.prev[s[i]] < a.Size() && a.next[a.prev[s[i]]] == s[i]
    ensures 0 <= a.next[s[i]] < a.Size() && a.prev[a.next[s[i]]] == s[i]
  {
    var p := if i > 0 then i - 1 else |s| - 1;
    var n := if i + 1 < |s| then i + 1 else 0;
    assert a.prev[s[i]] == s[p] && a.next[s[p]] == Succ(s, p);
    assert a.next[s[i]] == s[n] && a.prev[s[n]] == Pred(s, n);
  }

  /** Node x has the same links in both arenas. */
  ghost predicate SameLinks(a: Arena, a': Arena, x: nat)
    requires x < |a.next| && x < |a.prev| && x < |a'.next| && x < |a'.prev|
  {
    a'.next[x] == a.next[x] && a'.prev[x] == a.prev[x]
  }

  /**
    a' differs from a at most on the nodes of `s` and on `extra`: the size
    and the payload binding stay, every other node keeps its links.
   */
  ghost predicate FramedBy(a: Arena, a': Arena, s: seq<nat>, extra: int)
  {
    && a.WellSized() && a'.WellSized()
    && a'.Size() == a.Size()
    && a'.data == a.data
    && forall x: nat :: x < a.Size() && x !in s && x != extra ==> SameLinks(a, a', x)
  }

  /** s with position i taken out; the others keep their order. */
  function RemoveAt(s: seq<nat>, i: nat): (t: seq<nat>)
    requires i < |s|
    ensures |t| == |s| - 1
    ensures forall j :: 0 <= j < |t| ==> t[j] == if j < i then s[j] else s[j + 1]
  {
    s[..i] + s[i + 1..]
  }

  /** A list survives any arena change that leaves its own nodes alone. */
  lemma IsListFramed(a: Arena, a': Arena, h: int, s: seq<nat>, touched: seq<nat>, extra: int)
    requires IsList(a, h, s)
    requires FramedBy(a, a', touched, extra)
    requires Disjoint(s, touched) && extra !in s
    ensures IsList(a', h, s)
  {
    forall i | 0 <= i < |s|
      ensures a'.next[s[i]] == Succ(s, i) && a'.prev[s[i]] == Pred(s, i)
    {
      assert s[i] in s;
      assert SameLinks(a, a', s[i]);
    }
  }

  /**
    initList: with bufflen == 0 the head is NULL and no node is touched;
    otherwise nodes 0..bufflen-1 form the circular list 0,1,...,bufflen-1
    and node o is bound to payload slot o.
   */
  method InitList(a: Arena, bufflen: nat) returns (a': Arena, h: int)
    requires a.WellSized() && bufflen <= a.Size()
    ensures IsList(a', h, Range(bufflen))
    ensures bufflen == 0 ==> a' == a && h == NIL
    ensures a'.WellSized() && a'.Size() == a.Size()
    ensures forall o :: 0 <= o < bufflen ==> a'.data[o] == o
    ensures forall o :: bufflen <= o < a.Size() ==> a'.data[o] == a.data[o] && SameLinks(a, a', o)
  {
    h := NIL;
    a' := a;
    if bufflen != 0 {
      h := 0;
      var prev, next, data := a.prev, a.next, a.data;
      var o := 0;
      while o < bufflen
        invariant 0 <= o <= bufflen
        invariant |prev| == |next| == |data| == a.Size()
        invariant forall j :: 0 <= j < o ==> data[j] == j
        invariant forall j :: 0 <= j < o ==> prev[j] == (if j == 0 then bufflen - 1 else j - 1)
        invariant forall j :: 0 <= j < o ==> next[j] == (if j == bufflen - 1 then 0 else j + 1)
        invariant forall j :: o <= j < a.Size() ==> data[j] == a.data[j] && prev[j] == a.prev[j] && next[j] == a.next[j]
      {
        data := data[o := o];
        prev := prev[o := if o == 0 then bufflen - 1 else o - 1];
        next := next[o := if o == bufflen - 1 then 0 else o + 1];
        o := o + 1;
      }
      a' := Arena(prev, next, data);
      InitLinks(a', bufflen);
    }
  }

  /** The links written by initList's loop form the circular list 0..n-1. */
  lemma InitLinks(a: Arena, n: nat)
    requires a.WellSized() && 0 < n <= a.Size()
    requires forall j :: 0 <= j < n ==> a.prev[j] == (if j == 0 then n - 1 else j - 1)
    requires forall j :: 0 <= j < n ==> a.next[j] == (if j == n - 1 then 0 else j + 1)
    ensures IsList(a, 0, Range(n))
  {
    var s := Range(n);
    forall i | 0 <= i < |s|
      ensures a.next[s[i]] == Succ(s, i) && a.prev[s[i]] == Pred(s, i)
    {
    }
  }

  lemma DistinctSnoc(s: seq<nat>, el: nat)
    requires Distinct(s) && el !in s
    ensures Distinct(s + [el])
  {
    var t := s + [el];
    forall i, j | 0 <= i < j < |t|
      ensures t[i] != t[j]
    {
      assert t[i] == s[i];
      if j < |s| { assert t[j] == s[j]; }
    }
  }

  /**
    appendTail: s becomes s + [el]; on an empty list el becomes a
    self-linked head. Only el and the old head and tail are relinked.
   */
  method AppendTail(a: Arena, h: int, el: nat, ghost s: seq<nat>) returns (a': Arena, h': int)
    requires IsList(a, h, s)
    requires el < a.Size() && el !in s
    ensures IsList(a', h', s + [el])
    ensures FramedBy(a, a', s, el)
  {
    DistinctSnoc(s, el);
    if h == NIL {
      a' := a.(prev := a.prev[el := el], next := a.next[el := el]);
      h' := el;
      assert s + [el] == [el];
    } else {
      var head := h;
      var tail := a.prev[head];
      a' := a.(next := a.next[el := head][tail := el], prev := a.prev[el := tail][head := el]);
      h' := h;
      AppendTailLinks(a, a', s, el);
    }
  }

  lemma AppendTailLinks(a: Arena, a': Arena, s: seq<nat>, el: nat)
    requires IsList(a, if |s| == 0 then NIL else s[0], s) && |s| > 0
    requires el < a.Size() && el !in s && Distinct(s + [el])
    requires a' == a.(next := a.next[el := s[0]][s[|s| - 1] := el], prev := a.prev[el := s[|s| - 1]][s[0] := el])
    ensures IsList(a', s[0], s + [el])
  {
    var t := s + [el];
    var n := |s|;
    forall i | 0 <= i < |t|
      ensures t[i] < a'.Size()
    {
      if i < n { assert t[i] == s[i]; }
    }
    forall i | 0 <= i < |t|
      ensures a'.next[t[i]] == Succ(t, i) && a'.prev[t[i]] == Pred(t, i)
    {
      if i == n {
        assert t[i] == el;
      } else {
        assert t[i] == s[i];
        if i == 0 {
          if n == 1 { assert t[1] == el; } else { assert t[1] == s[1]; }
        } else if i == n - 1 {
          assert t[i + 1] == el && t[i - 1] == s[i - 1];
          assert s[i] != s[0];
        } else {
          assert s[i] != s[0] && s[i] != s[n - 1];
          assert t[i + 1] == s[i + 1] && t[i - 1] == s[i - 1];
        }
      }
    }
  }

  /** Rotating the last element of a circular list to the front keeps it a list. */
  lemma RotateLast(a: Arena, s: seq<nat>, el: nat)
    requires IsList(a, (s + [el])[0], s + [el])
    ensures IsList(a, el, [el] + s)
  {
    RotateDistinct(s, el);
    RotateNext(a, s, el);
    RotatePrev(a, s, el);
  }

  lemma RotateDistinct(s: seq<nat>, el: nat)
    requires Distinct(s + [el])
    ensures Distinct([el] + s)
  {
    var t := s + [el];
    var u := [el] + s;
    forall i, j | 0 <= i < j < |u|
      ensures u[i] != u[j]
    {
      assert u[j] == t[j - 1];
      if i == 0 { assert u[i] == t[|s|]; } else { assert u[i] == t[i - 1]; }
    }
  }

  lemma RotateNext(a: Arena, s: seq<nat>, el: nat)
    requires IsList(a, (s + [el])[0], s + [el])
    ensures forall i :: 0 <= i < |[el] + s| ==> ([el] + s)[i] < a.Size() && a.next[([el] + s)[i]] == Succ([el] + s, i)
  {
    var t := s + [el];
    var u := [el] + s;
    var n := |s|;
    forall i | 0 <= i < |u|
      ensures u[i] < a.Size() && a.next[u[i]] == Succ(u, i)
    {
      if i == 0 {
        assert u[i] == t[n];
        assert a.next[t[n]] == t[0];
        if n > 0 { assert u[1] == t[0]; }
      } else {
        assert u[i] == t[i - 1];
        assert a.next[t[i - 1]] == t[i];
        if i < n { assert u[i + 1] == t[i]; }
      }
    }
  }

  lemma RotatePrev(a: Arena, s: seq<nat>, el: nat)
    requires IsList(a, (s + [el])[0], s + [el])
    ensures forall i :: 0 <= i < |[el] + s| ==> ([el] + s)[i] < a.Size() && a.prev[([el] + s)[i]] == Pred([el] + s, i)
  {
    var t := s + [el];
    var u := [el] + s;
    var n := |s|;
    forall i | 0 <= i < |u|
      ensures u[i] < a.Size() && a.prev[u[i]] == Pred(u, i)
    {
      if i == 0 {
        assert u[i] == t[n];
        assert a.prev[t[n]] == Pred(t, n);
        if n > 0 { assert u[n] == t[n - 1]; }
      } else {
        assert u[i] == t[i - 1];
        assert a.prev[t[i - 1]] == Pred(t, i - 1);
        if i > 1 { assert u[i - 1] == t[i - 2]; }
      }
    }
  }

  /** appendHead: s becomes [el] + s, the element is the new head. */
  method AppendHead(a: Arena, h: int, el: nat, ghost s: seq<nat>) returns (a': Arena, h': int)
    requires IsList(a, h, s)
    requires el < a.Size() && el !in s
    ensures IsList(a', h', [el] + s) && h' == el
    ensures FramedBy(a, a', s, el)
  {
    var h1;
    a', h1 := AppendTail(a, h, el, s);
    h' := el;
    RotateLast(a', s, el);
  }

  lemma RemoveAtMembers(s: seq<nat>, i: nat)
    requires i < |s| && Distinct(s)
    ensures Distinct(RemoveAt(s, i))
    ensures forall y :: y in RemoveAt(s, i) <==> y in s && y != s[i]
  {
    var t := RemoveAt(s, i);
    forall y | y in t
      ensures y in s && y != s[i]
    {
      var k :| 0 <= k < |t| && t[k] == y;
      if k < i { assert t[k] == s[k]; } else { assert t[k] == s[k + 1]; }
    }
    forall y | y in s && y != s[i]
      ensures y in t
    {
      var k :| 0 <= k < |s| && s[k] == y;
      if k < i { assert t[k] == y; } else { assert t[k - 1] == y; }
    }
    forall j, k | 0 <= j < k < |t|
      ensures t[j] != t[k]
    {
    }
  }

  /**
    removeElement on a member (at ghost position i): the node leaves the
    list, the others keep their order, the head moves to its successor when
    the head is removed, a singleton list becomes empty, and the removed
    node's links are NULL.
   */
  method RemoveElement(a: Arena, h: int, x: nat, ghost s: seq<nat>, ghost i: nat) returns (a': Arena, h': int)
    requires IsList(a, h, s)
    requires i < |s| && s[i] == x
    ensures IsList(a', h', RemoveAt(s, i))
    ensures FramedBy(a, a', s, NIL)
    ensures a'.next[x] == NIL && a'.prev[x] == NIL
    ensures h == x && |s| > 1 ==> h' == s[1]
    ensures h != x ==> h' == h
  {
    SelfLinkedIffAlone(a, h, s, i);
    var tmpPrev := a.prev[x];
    var tmpNext := a.next[x];
    a' := a;
    h' := h;
    if h != NIL {
      if tmpNext == x {
        h' := NIL;
      } else {
        a' := a.(prev := a.prev[tmpNext := tmpPrev], next := a.next[tmpPrev := tmpNext]);
        if h == x {
          h' := tmpNext;
        }
      }
    }
    ghost var mid := a';
    a' := a'.(prev := a'.prev[x := NIL], next := a'.next[x := NIL]);
    RemoveLinks(a, mid, a', h, h', s, i);
  }

  /** A member links to itself exactly when it is alone in its list. */
  lemma SelfLinkedIffAlone(a: Arena, h: int, s: seq<nat>, i: nat)
    requires IsList(a, h, s) && i < |s|
    ensures a.next[s[i]] == s[i] <==> |s| == 1
  {
    if |s| > 1 {
      if i + 1 < |s| { assert s[i + 1] != s[i]; } else { assert s[0] != s[i]; }
    }
  }

  /** The relinking done by RemoveElement leaves a list equal to RemoveAt(s, i). */
  lemma RemoveLinks(a: Arena, mid: Arena, a': Arena, h: int, h': int, s: seq<nat>, i: nat)
    requires IsList(a, h, s) && i < |s|
    requires |s| == 1 ==> mid == a && h' == NIL
    requires |s| > 1 ==> mid == a.(prev := a.prev[Succ(s, i) := Pred(s, i)], next := a.next[Pred(s, i) := Succ(s, i)])
    requires |s| > 1 ==> h' == (if h == s[i] then Succ(s, i) else h)
    requires a' == mid.(prev := mid.prev[s[i] := NIL], next := mid.next[s[i] := NIL])
    ensures IsList(a', h', RemoveAt(s, i))
  {
    RemoveAtMembers(s, i);
    var t := RemoveAt(s, i);
    if |s| > 1 {
      NeighboursDiffer(a, h, s, i);
      if i == 0 {
        assert t[0] == s[1];
      } else {
        assert t[0] == s[0];
      }
      forall j | 0 <= j < |t|
        ensures t[j] < a'.Size()
      {
        if j < i { assert t[j] == s[j]; } else { assert t[j] == s[j + 1]; }
      }
      RemoveNext(a, a'.next, s, i);
      RemovePrev(a, a'.prev, s, i);
    } else {
      assert t == [];
    }
  }

  lemma NeighboursDiffer(a: Arena, h: int, s: seq<nat>, i: nat)
    requires IsList(a, h, s) && i < |s| && |s| > 1
    ensures Pred(s, i) != s[i] && Succ(s, i) != s[i]
  {
    if i > 0 { assert s[i - 1] != s[i]; } else { assert s[|s| - 1] != s[i]; }
    if i + 1 < |s| { assert s[i + 1] != s[i]; } else { assert s[0] != s[i]; }
  }

  lemma RemoveNext(a: Arena, next': seq<int>, s: seq<nat>, i: nat)
    requires |s| > 1 && i < |s| && IsList(a, s[0], s)
    requires Pred(s, i) != s[i] && Succ(s, i) != s[i]
    requires next' == a.next[Pred(s, i) := Succ(s, i)][s[i] := NIL]
    ensures forall j {:trigger next'[RemoveAt(s, i)[j]]} :: 0 <= j < |RemoveAt(s, i)| ==> next'[RemoveAt(s, i)[j]] == Succ(RemoveAt(s, i), j)
  {
    var t := RemoveAt(s, i);
    var n := |s|;
    forall j | 0 <= j < |t|
      ensures next'[t[j]] == Succ(t, j)
    {
      var k := if j < i then j else j + 1;
      assert t[j] == s[k];
      assert s[k] != s[i];
      if (i > 0 && k == i - 1) || (i == 0 && k == n - 1) {
        assert s[k] == Pred(s, i);
        if i > 0 && i + 1 < n {
          assert t[j + 1] == s[i + 1];
        } else if i > 0 {
          assert t[0] == s[0];
        } else {
          assert t[0] == s[1];
        }
      } else {
        assert s[k] != Pred(s, i);
        assert next'[s[k]] == a.next[s[k]] == Succ(s, k);
        if k + 1 < n {
          assert t[j + 1] == s[k + 1];
        } else {
          assert t[0] == s[0];
        }
      }
    }
  }

  lemma RemovePrev(a: Arena, prev': seq<int>, s: seq<nat>, i: nat)
    requires |s| > 1 && i < |s| && IsList(a, s[0], s)
    requires Pred(s, i) != s[i] && Succ(s, i) != s[i]
    requires prev' == a.prev[Succ(s, i) := Pred(s, i)][s[i] := NIL]
    ensures forall j {:trigger prev'[RemoveAt(s, i)[j]]} :: 0 <= j < |RemoveAt(s, i)| ==> prev'[RemoveAt(s, i)[j]] == Pred(RemoveAt(s, i), j)
  {
    var t := RemoveAt(s, i);
    var n := |s|;
    forall j | 0 <= j < |t|
      ensures prev'[t[j]] == Pred(t, j)
    {
      var k := if j < i then j else j + 1;
      assert t[j] == s[k];
      assert s[k] != s[i];
      if (i + 1 < n && k == i + 1) || (i + 1 == n && k == 0) {
        assert s[k] == Succ(s, i);
        if i + 1 < n && i > 0 {
          assert t[j - 1] == s[i - 1];
        } else if i + 1 < n {
          assert t[n - 2] == s[n - 1];
        } else {
          assert t[n - 2] == s[n - 2];
        }
      } else {
        assert s[k] != Succ(s, i);
        assert prev'[s[k]] == a.prev[s[k]] == Pred(s, k);
        if k > 0 {
          assert t[j - 1] == s[k - 1];
        } else {
          assert t[n - 2] == s[n - 1];
        }
      }
    }
  }

  /**
    removeElement_safe: scans the list from the head (a do-while over the
    `next` links) and only unlinks x when it was found. Returns 0 after a
    removal and 1, with nothing changed, when the list is empty or x is not
    in it.
   */
  method RemoveElementSafe(a: Arena, h: int, x: int, ghost s: seq<nat>) returns (a': Arena, h': int, ret: int)
    requires IsList(a, h, s)
    ensures ret == 0 || ret == 1
    ensures ret == 0 <==> x in s
    ensures ret == 1 ==> a' == a && h' == h
    ensures ret == 0 ==> exists i :: 0 <= i < |s| && s[i] == x && IsList(a', h', RemoveAt(s, i))
    ensures ret == 0 ==> 0 <= x < a.Size() && FramedBy(a, a', s, NIL)
    ensures ret == 0 ==> a'.next[x] == NIL && a'.prev[x] == NIL
    ensures ret == 0 && h == x && |s| > 1 ==> h' == s[1]
    ensures ret == 0 && s == [x] ==> h' == NIL
    ensures ret == 0 && h != x ==> h' == h
  {
    a', h', ret := a, h, 1;
    if h != NIL {
      var found := false;
      var tmp := h;
      ghost var k := 0;
      if tmp == x {
        found := true;
      }
      tmp := a.next[tmp];
      k := 1;
      while tmp != h && !found
        invariant 1 <= k <= |s|
        invariant tmp == Succ(s, k - 1)
        invariant found ==> s[k - 1] == x
        invariant !found ==> forall j :: 0 <= j < k ==> s[j] != x
        decreases |s| - k
      {
        if tmp == x {
          found := true;
        }
        tmp := a.next[tmp];
        k := k + 1;
      }
      if found {
        assert s[k - 1] in s;
        a', h' := RemoveElement(a, h, x, s, k - 1);
        assert s == [x] ==> RemoveAt(s, k - 1) == [];
        ret := 0;
      }
    }
  }

  /** removeHead: NIL on an empty list, otherwise the first element, unlinked. */
  method RemoveHead(a: Arena, h: int, ghost s: seq<nat>) returns (a': Arena, h': int, r: int)
    requires IsList(a, h, s)
    ensures s == [] ==> r == NIL && a' == a && h' == h
    ensures s != [] ==> r == s[0] && IsList(a', h', s[1..]) && FramedBy(a, a', s, NIL)
    ensures s != [] ==> a'.next[r] == NIL && a'.prev[r] == NIL
  {
    a', h', r := a, h, NIL;
    if h != NIL {
      r := h;
      a', h' := RemoveElement(a, h, r, s, 0);
      assert RemoveAt(s, 0) == s[1..];
    }
  }

  /** removeTail: NIL on an empty list, otherwise the last element, unlinked. */
  method RemoveTail(a: Arena, h: int, ghost s: seq<nat>) returns (a': Arena, h': int, r: int)
    requires IsList(a, h, s)
    ensures s == [] ==> r == NIL && a' == a && h' == h
    ensures s != [] ==> r == s[|s| - 1] && IsList(a', h', s[..|s| - 1]) && FramedBy(a, a', s, NIL)
    ensures s != [] ==> a'.next[r] == NIL && a'.prev[r] == NIL
  {
    a', h', r := a, h, NIL;
    if h != NIL {
      r := a.prev[h];
      assert r == Pred(s, 0);
      a', h' := RemoveElement(a, h, r, s, |s| - 1);
      assert RemoveAt(s, |s| - 1) == s[..|s| - 1];
    }
  }

  /**
    mergeList: every element of `from` moves, in order, behind the tail of
    `to`, and `from` becomes empty. Nothing changes when `from` is empty;
    `to` takes over `from`'s head when `to` is empty.
   */
  method MergeList(a: Arena, fromH: int, toH: int, ghost sFrom: seq<nat>, ghost sTo: seq<nat>)
    returns (a': Arena, fromH': int, toH': int)
    requires IsList(a, fromH, sFrom) && IsList(a, toH, sTo)
    requires Disjoint(sFrom, sTo)
    ensures IsList(a', toH', sTo + sFrom) && fromH' == NIL
    ensures FramedBy(a, a', sTo + sFrom, NIL)
    ensures sFrom == [] ==> a' == a && toH' == toH
    ensures sTo == [] ==> a' == a && toH' == fromH
  {
    if fromH == NIL {
      assert sTo + sFrom == sTo;
      return a, fromH, toH;
    }
    if toH == NIL {
      assert sTo + sFrom == sFrom;
      return a, NIL, fromH;
    }
    var tmp1 := a.prev[toH];
    var tmp2 := a.prev[fromH];
    a' := a.(prev := a.prev[toH := tmp2][fromH := tmp1], next := a.next[tmp2 := toH][tmp1 := fromH]);
    fromH' := NIL;
    toH' := toH;
    MergeLinks(a, a', sFrom, sTo);
  }

  lemma DistinctConcat(s: seq<nat>, t: seq<nat>)
    requires Distinct(s) && Distinct(t) && Disjoint(t, s)
    ensures Distinct(s + t)
  {
    var u := s + t;
    forall i, j | 0 <= i < j < |u|
      ensures u[i] != u[j]
    {
      if j < |s| {
        assert u[i] == s[i] && u[j] == s[j];
      } else if i >= |s| {
        assert u[i] == t[i - |s|] && u[j] == t[j - |s|];
      } else {
        assert u[i] == s[i] && u[j] == t[j - |s|];
        assert u[j] in t;
      }
    }
  }

  lemma MergeLinks(a: Arena, a': Arena, sFrom: seq<nat>, sTo: seq<nat>)
    requires sFrom != [] && sTo != []
    requires IsList(a, sFrom[0], sFrom) && IsList(a, sTo[0], sTo) && Disjoint(sFrom, sTo)
    requires a' == a.(prev := a.prev[sTo[0] := sFrom[|sFrom| - 1]][sFrom[0] := sTo[|sTo| - 1]],
                      next := a.next[sFrom[|sFrom| - 1] := sTo[0]][sTo[|sTo| - 1] := sFrom[0]])
    ensures IsList(a', sTo[0], sTo + sFrom)
  {
    var u := sTo + sFrom;
    DistinctConcat(sTo, sFrom);
    forall i | 0 <= i < |u|
      ensures u[i] < a'.Size()
    {
      if i < |sTo| { assert u[i] == sTo[i]; } else { assert u[i] == sFrom[i - |sTo|]; }
    }
    MergeNext(a, a'.next, sFrom, sTo);
    MergePrev(a, a'.prev, sFrom, sTo);
  }

  lemma MergeNext(a: Arena, next': seq<int>, sFrom: seq<nat>, sTo: seq<nat>)
    requires sFrom != [] && sTo != []
    requires IsList(a, sFrom[0], sFrom) && IsList(a, sTo[0], sTo) && Disjoint(sFrom, sTo)
    requires next' == a.next[sFrom[|sFrom| - 1] := sTo[0]][sTo[|sTo| - 1] := sFrom[0]]
    ensures forall i {:trigger next'[(sTo + sFrom)[i]]} :: 0 <= i < |sTo + sFrom| ==> next'[(sTo + sFrom)[i]] == Succ(sTo + sFrom, i)
  {
    var u := sTo + sFrom;
    var m := |sTo|;
    var n := |sFrom|;
    forall i | 0 <= i < |u|
      ensures next'[u[i]] == Succ(u, i)
    {
      if i < m {
        assert u[i] == sTo[i] && sTo[i] in sTo;
        assert sTo[i] != sFrom[n - 1] by { assert sFrom[n - 1] in sFrom; }
        assert a.next[sTo[i]] == Succ(sTo, i);
        if i + 1 < m { assert u[i + 1] == sTo[i + 1]; } else { assert u[i + 1] == sFrom[0]; }
      } else {
        assert u[i] == sFrom[i - m] && sFrom[i - m] in sFrom;
        assert sFrom[i - m] != sTo[m - 1] by { assert sTo[m - 1] in sTo; }
        assert a.next[sFrom[i - m]] == Succ(sFrom, i - m);
        if i + 1 < m + n { assert u[i + 1] == sFrom[i - m + 1]; }
      }
    }
  }

  lemma MergePrev(a: Arena, prev': seq<int>, sFrom: seq<nat>, sTo: seq<nat>)
    requires sFrom != [] && sTo != []
    requires IsList(a, sFrom[0], sFrom) && IsList(a, sTo[0], sTo) && Disjoint(sFrom, sTo)
    requires prev' == a.prev[sTo[0] := sFrom[|sFrom| - 1]][sFrom[0] := sTo[|sTo| - 1]]
    ensures forall i {:trigger prev'[(sTo + sFrom)[i]]} :: 0 <= i < |sTo + sFrom| ==> prev'[(sTo + sFrom)[i]] == Pred(sTo + sFrom, i)
  {
    var u := sTo + sFrom;
    var m := |sTo|;
    var n := |sFrom|;
    forall i | 0 <= i < |u|
      ensures prev'[u[i]] == Pred(u, i)
    {
      if i < m {
        assert u[i] == sTo[i] && sTo[i] in sTo;
        assert sTo[i] != sFrom[0] by { assert sFrom[0] in sFrom; }
        assert a.prev[sTo[i]] == Pred(sTo, i);
        if i > 0 { assert u[i - 1] == sTo[i - 1]; } else { assert u[m + n - 1] == sFrom[n - 1]; }
      } else {
        assert u[i] == sFrom[i - m] && sFrom[i - m] in sFrom;
        assert sFrom[i - m] != sTo[0] by { assert sTo[0] in sTo; }
        assert a.prev[sFrom[i - m]] == Pred(sFrom, i - m);
        if i > m { assert u[i - 1] == sFrom[i - m - 1]; } else { assert u[m - 1] == sTo[m - 1]; }
      }
    }
  }

  /** Two lists that together hold every node of an n-node arena exactly once. */
  ghost predicate Partition(s1: seq<nat>, s2: seq<nat>, n: nat)
  {
    multiset(s1) + multiset(s2) == multiset(Range(n))
  }

  lemma RangeOnce(n: nat, x: nat)
    ensures multiset(Range(n))[x] == (if x < n then 1 else 0)
  {
    if n > 0 {
      assert Range(n) == Range(n - 1) + [n - 1];
      RangeOnce(n - 1, x);
    }
  }

  /** A partition of the arena: the two lists are disjoint and their lengths add up to n. */
  lemma PartitionFacts(s1: seq<nat>, s2: seq<nat>, n: nat)
    requires Partition(s1, s2, n)
    ensures |s1| + |s2| == n
    ensures Disjoint(s1, s2)
    ensures forall x :: x in s1 ==> x < n
    ensures forall x :: x in s2 ==> x < n
  {
    assert |multiset(s1) + multiset(s2)| == |multiset(Range(n))|;
    forall x | x in s1
      ensures x !in s2 && x < n
    {
      RangeOnce(n, x);
      assert multiset(s1)[x] >= 1;
      assert (multiset(s1) + multiset(s2))[x] == 1;
    }
    forall x | x in s2
      ensures x < n
    {
      RangeOnce(n, x);
      assert multiset(s2)[x] >= 1;
    }
  }

  /** Moving the head of the second list to the tail of the first keeps the partition. */
  lemma PartitionShift(s1: seq<nat>, s2: seq<nat>, n: nat)
    requires Partition(s1, s2, n) && s2 != []
    ensures Partition(s1 + [s2[0]], s2[1..], n)
    ensures s2[0] !in s1 && s2[0] < n
  {
    PartitionFacts(s1, s2, n);
    assert s2 == [s2[0]] + s2[1..];
    assert multiset(s1 + [s2[0]]) + multiset(s2[1..]) == multiset(s1) + multiset(s2);
    assert s2[0] in s2;
  }

  /**
    The removeHead-then-appendTail hand-over between two lists sharing one
    arena (free list to pending list and back): the head of `from` moves to
    the tail of `to` and the two lists still partition the arena.
   */
  method MoveHead(a: Arena, fromH: int, toH: int, ghost sFrom: seq<nat>, ghost sTo: seq<nat>)
    returns (a': Arena, fromH': int, toH': int, node: int)
    requires IsList(a, fromH, sFrom) && IsList(a, toH, sTo)
    requires Partition(sFrom, sTo, a.Size())
    requires sFrom != []
    ensures node == sFrom[0]
    ensures IsList(a', fromH', sFrom[1..]) && IsList(a', toH', sTo + [sFrom[0]])
    ensures Partition(sFrom[1..], sTo + [sFrom[0]], a'.Size()) && a'.Size() == a.Size()
    ensures a'.data == a.data
  {
    PartitionFacts(sFrom, sTo, a.Size());
    var a1;
    a1, fromH', node := RemoveHead(a, fromH, sFrom);
    IsListFramed(a, a1, toH, sTo, sFrom, NIL);
    assert sFrom[0] in sFrom;
    a', toH' := AppendTail(a1, toH, node, sTo);
    assert Disjoint(sFrom[1..], sTo) && node !in sFrom[1..] by {
      forall y | y in sFrom[1..] ensures y in sFrom && y != sFrom[0] {
        var k :| 0 <= k < |sFrom[1..]| && sFrom[1..][k] == y;
        assert sFrom[k + 1] == y;
      }
    }
    IsListFramed(a1, a', fromH', sFrom[1..], sTo, node);
    assert sFrom == [sFrom[0]] + sFrom[1..];
    assert multiset(sFrom) == multiset{sFrom[0]} + multiset(sFrom[1..]);
  }

  /** Merging one list of an arena partition into the other keeps the partition. */
  method MergeAll(a: Arena, fromH: int, toH: int, ghost sFrom: seq<nat>, ghost sTo: seq<nat>)
    returns (a': Arena, fromH': int, toH': int)
    requires IsList(a, fromH, sFrom) && IsList(a, toH, sTo)
    requires Partition(sFrom, sTo, a.Size())
    ensures IsList(a', fromH', []) && IsList(a', toH', sTo + sFrom)
    ensures Partition([], sTo + sFrom, a'.Size()) && a'.Size() == a.Size()
    ensures a'.data == a.data
  {
    PartitionFacts(sFrom, sTo, a.Size());
    a', fromH', toH' := MergeList(a, fromH, toH, sFrom, sTo);
  }
}
