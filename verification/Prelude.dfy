/** Types and sequence facts shared by the whole model. */
module Prelude {

  datatype Option<+T> = None | Some(value: T)

  type Byte = b: int | 0 <= b < 256

  /** A libp2p peer id is identified with its canonical byte string. */
  type PeerId = seq<Byte>

  /** Return codes of calls and completed operations. */
  datatype Ret = Success | ProtocolError | Canceled | InvalidArg

  function Hit(b: bool): nat { if b then 1 else 0 }

  function Min(a: nat, b: nat): nat { if a <= b then a else b }

  function Max(a: nat, b: nat): nat { if a <= b then b else a }

  /** Rust's `saturating_sub` on unsigned integers. */
  function Monus(a: nat, b: nat): nat { if a <= b then 0 else a - b }

  /** `VecDeque::remove(i)`. */
  function RemoveAt<T>(s: seq<T>, i: nat): seq<T>
    requires i < |s|
  {
    s[..i] + s[i + 1..]
  }

  lemma RemoveAtKeepsTheRest<T>(s: seq<T>, i: nat)
    requires i < |s|
    ensures multiset(s) == multiset(RemoveAt(s, i)) + multiset{s[i]}
    ensures forall x :: x in RemoveAt(s, i) ==> x in s
  {
    assert s == s[..i] + [s[i]] + s[i + 1..];
  }

  // ---- Subsequences --------------------------------------------------------

  function Select<T>(p: T -> bool, s: seq<T>): seq<T> {
    if s == [] then [] else
      var k := |s| - 1;
      Select(p, s[..k]) + if p(s[k]) then [s[k]] else []
  }

  lemma {:induction false} SelectCat<T>(p: T -> bool, a: seq<T>, b: seq<T>)
    ensures Select(p, a + b) == Select(p, a) + Select(p, b)
    decreases |b|
  {
    if b == [] {
      assert a + b == a;
    } else {
      var k := |b| - 1;
      SelectCat(p, a, b[..k]);
      assert (a + b)[..|a + b| - 1] == a + b[..k];
    }
  }

  lemma SelectOne<T>(p: T -> bool, x: T)
    ensures Select(p, [x]) == if p(x) then [x] else []
  {
    assert [x][..0] == [];
  }

  lemma {:induction false} SelectIn<T>(p: T -> bool, s: seq<T>, x: T)
    ensures x in Select(p, s) <==> x in s && p(x)
    decreases |s|
  {
    if s != [] {
      var k := |s| - 1;
      SelectIn(p, s[..k], x);
      assert s == s[..k] + [s[k]];
    }
  }

  lemma {:induction false} SelectNone<T>(p: T -> bool, s: seq<T>)
    requires forall j | 0 <= j < |s| :: !p(s[j])
    ensures Select(p, s) == []
    decreases |s|
  {
    if s != [] {
      var k := |s| - 1;
      SelectNone(p, s[..k]);
    }
  }

  lemma {:induction false} SelectAll<T>(p: T -> bool, s: seq<T>)
    requires forall x | x in s :: p(x)
    ensures Select(p, s) == s
    decreases |s|
  {
    if s != [] {
      var k := |s| - 1;
      SelectAll(p, s[..k]);
      assert s == s[..k] + [s[k]];
    }
  }

  lemma SelectMid<T>(p: T -> bool, a: seq<T>, x: T, b: seq<T>)
    ensures Select(p, a + [x] + b) == Select(p, a) + Select(p, [x]) + Select(p, b)
    ensures Select(p, a + b) == Select(p, a) + Select(p, b)
  {
    SelectCat(p, a + [x], b);
    SelectCat(p, a, [x]);
    SelectCat(p, a, b);
  }

  lemma AroundIndex<T>(s: seq<T>, i: nat)
    requires i < |s|
    ensures s == s[..i] + [s[i]] + s[i + 1..]
  {
  }

  /** Removing an unselected element leaves the selection alone. */
  lemma SelectSkip<T>(p: T -> bool, s: seq<T>, i: nat)
    requires i < |s| && !p(s[i])
    ensures Select(p, s) == Select(p, RemoveAt(s, i))
  {
    AroundIndex(s, i);
    SelectMid(p, s[..i], s[i], s[i + 1..]);
    SelectOne(p, s[i]);
  }

  /** Removing the oldest selected element removes the head of the selection. */
  lemma SelectTake<T>(p: T -> bool, s: seq<T>, i: nat)
    requires i < |s| && p(s[i]) && forall j | 0 <= j < i :: !p(s[j])
    ensures Select(p, s) == [s[i]] + Select(p, RemoveAt(s, i))
  {
    var a, b := s[..i], s[i + 1..];
    AroundIndex(s, i);
    SelectNone(p, a);
    SelectOne(p, s[i]);
    calc {
      Select(p, a + [s[i]] + b);
      { SelectMid(p, a, s[i], b); }
      [] + [s[i]] + Select(p, b);
      [s[i]] + Select(p, b);
      { SelectMid(p, a, s[i], b); assert Select(p, a + b) == [] + Select(p, b) == Select(p, b); }
      [s[i]] + Select(p, a + b);
    }
  }

  lemma {:induction false} SelectWithin<T>(p: T -> bool, q: T -> bool, s: seq<T>)
    requires forall j | 0 <= j < |s| :: p(s[j]) ==> q(s[j])
    ensures Select(p, Select(q, s)) == Select(p, s)
    decreases |s|
  {
    if s != [] {
      var k := |s| - 1;
      SelectWithin(p, q, s[..k]);
      if q(s[k]) {
        SelectCat(p, Select(q, s[..k]), [s[k]]);
        SelectOne(p, s[k]);
      } else {
        assert Select(q, s) == Select(q, s[..k]);
      }
    }
  }

  lemma {:induction false} SelectApart<T>(p: T -> bool, q: T -> bool, s: seq<T>)
    requires forall j | 0 <= j < |s| :: p(s[j]) ==> !q(s[j])
    ensures Select(p, Select(q, s)) == []
    decreases |s|
  {
    if s != [] {
      var k := |s| - 1;
      SelectApart(p, q, s[..k]);
      if q(s[k]) {
        SelectCat(p, Select(q, s[..k]), [s[k]]);
        SelectOne(p, s[k]);
      } else {
        assert Select(q, s) == Select(q, s[..k]);
      }
    }
  }
}
