/** Vocabulary shared by the other modules. */
module Basics {

  datatype Option<+T> = None | Some(value: T) {
    function GetOr(default: T): T {
      if Some? then value else default
    }
  }

  /** The status column of an agent. */
  datatype Status = Online | Offline | Busy

  datatype Result<+T, +E> = Ok(value: T) | Err(error: E)

  /** The positions of the elements that are kept, in order. */
  ghost predicate Selects<T>(positions: seq<nat>, s: seq<T>, keep: T -> bool) {
    && (forall i, j | 0 <= i < j < |positions| :: positions[i] < positions[j])
    && (forall i: nat :: i in positions <==> i < |s| && keep(s[i]))
  }

  lemma SelectsSnoc<T>(positions: seq<nat>, s: seq<T>, keep: T -> bool)
    requires s != [] && Selects(positions, s[..|s|-1], keep)
    ensures Selects(if keep(s[|s|-1]) then positions + [|s| - 1] else positions, s, keep)
  {
    var n := |s| - 1;
    assert forall i | 0 <= i < n :: s[..n][i] == s[i];
    forall i | 0 <= i < |positions| ensures positions[i] < n {
      assert positions[i] in positions;
    }
  }

  function Except<T(==)>(s: seq<T>, x: T): seq<T> {
    if s == [] then [] else (if s[0] == x then [] else [s[0]]) + Except(s[1..], x)
  }

  /** Every element where it first appears. */
  function Firsts<T(==)>(s: seq<T>): seq<T> {
    if s == [] then [] else [s[0]] + Except(Firsts(s[1..]), s[0])
  }

  lemma {:induction false} ExceptSnoc<T>(s: seq<T>, y: T, x: T)
    ensures Except(s + [y], x) == Except(s, x) + if y == x then [] else [y]
  {
    if s == [] {
      assert (s + [y])[1..] == [];
    } else {
      assert (s + [y])[1..] == s[1..] + [y];
      ExceptSnoc(s[1..], y, x);
    }
  }

  lemma {:induction false} ExceptMembers<T>(s: seq<T>, x: T)
    ensures forall y :: y in Except(s, x) <==> y in s && y != x
  {
    if s != [] {
      ExceptMembers(s[1..], x);
      assert s == [s[0]] + s[1..];
    }
  }

  lemma {:induction false} FirstsSnoc<T>(s: seq<T>, x: T)
    ensures Firsts(s + [x]) == if x in s then Firsts(s) else Firsts(s) + [x]
    ensures forall y :: y in Firsts(s) <==> y in s
  {
    if s == [] {
      assert (s + [x])[1..] == [];
    } else {
      assert (s + [x])[1..] == s[1..] + [x];
      assert s == [s[0]] + s[1..];
      FirstsSnoc(s[1..], x);
      ExceptMembers(Firsts(s[1..]), s[0]);
      ExceptSnoc(Firsts(s[1..]), x, s[0]);
      ExceptMembers(Firsts(s[1..]), x);
    }
  }
}
