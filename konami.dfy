/** The key-sequence recogniser (src/konami.js): it fires its action when
    UP UP DOWN DOWN LEFT RIGHT LEFT RIGHT B A ENTER is typed. The action is
    a callback; the model counts its invocations in `activations`. */
module KonamiCode {
  const LEFT: int := 37
  const UP: int := 38
  const RIGHT: int := 39
  const DOWN: int := 40
  const A: int := 65
  const B: int := 66
  const ENTER: int := 13

  /** The key each state advances on, in order. */
  const Code: seq<int> := [UP, UP, DOWN, DOWN, LEFT, RIGHT, LEFT, RIGHT, B, A, ENTER]

  /** Where each state goes on a wrong key: `advanceOn(key, indexOnFailure)`
      with `indexOnFailure || 0`; only the second state names one, 1. */
  const OnFailure: seq<nat> := [0, 1, 0, 0, 0, 0, 0, 0, 0, 0, 0]

  /** `states[index](key)`: the matching key advances, any other goes to the
      state's failure index. */
  function Advance(index: nat, key: int): (next: nat)
    requires index < |Code|
    ensures next == index + 1 <==> key == Code[index]
    ensures key != Code[index] ==> next == (if index == 1 then 1 else 0)
  {
    if key == Code[index] then index + 1 else OnFailure[index]
  }

  /** The index after one `handleKeypress`: completing the code returns to 0. */
  function Next(index: nat, key: int): (next: nat)
    requires index < |Code|
    ensures next < |Code|
    ensures next == 0 || next == 1 || next == index + 1
  {
    var n := Advance(index, key);
    if n == |Code| then 0 else n
  }

  /** Whether one `handleKeypress` fires the action. */
  predicate Fires(index: nat, key: int)
    requires index < |Code|
  {
    Advance(index, key) == |Code|
  }

  /** Only ENTER typed at the last state fires. */
  lemma FiresExactly(index: nat, key: int)
    requires index < |Code|
    ensures Fires(index, key) <==> index == |Code| - 1 && key == ENTER
  {
  }

  /** Feeding keys one after another from `index`: the final index and how
      many times the action fired. */
  function Run(index: nat, keys: seq<int>): (r: (nat, nat))
    requires index < |Code|
    ensures r.0 < |Code| && r.1 <= |keys|
    decreases |keys|
  {
    if keys == [] then (index, 0)
    else
      var rest := Run(Next(index, keys[0]), keys[1..]);
      (rest.0, rest.1 + if Fires(index, keys[0]) then 1 else 0)
  }

  /** Feeding `keys` and then `more` is feeding `keys + more`. */
  lemma {:induction false} RunAppend(index: nat, keys: seq<int>, more: seq<int>)
    requires index < |Code|
    ensures var first := Run(index, keys);
      Run(index, keys + more) == (Run(first.0, more).0, first.1 + Run(first.0, more).1)
    decreases |keys|
  {
    if keys != [] {
      assert (keys + more)[0] == keys[0];
      assert (keys + more)[1..] == keys[1..] + more;
      RunAppend(Next(index, keys[0]), keys[1..], more);
    } else {
      assert keys + more == more;
    }
  }

  /** Typing a prefix of the code from the start walks through the states
      without firing. */
  lemma {:induction false} PrefixAdvances(n: nat)
    requires n < |Code|
    ensures Run(0, Code[..n]) == (n, 0)
  {
    if n > 0 {
      PrefixAdvances(n - 1);
      assert Code[..n] == Code[..n - 1] + [Code[n - 1]];
      RunAppend(0, Code[..n - 1], [Code[n - 1]]);
      assert [Code[n - 1]][1..] == [];
    }
  }

  /** Typing the whole code from the start fires the action exactly once and
      returns to the start. */
  lemma FullCodeFiresOnce()
    ensures Run(0, Code) == (0, 1)
  {
    PrefixAdvances(|Code| - 1);
    assert Code == Code[..|Code| - 1] + [ENTER];
    RunAppend(0, Code[..|Code| - 1], [ENTER]);
    assert [ENTER][1..] == [];
  }

  /** The failure index 1 belongs to the second state rather than the third:
      a third UP sends the recogniser back to the start, so the code typed
      after an extra UP is not recognised. */
  lemma ExtraUpIsMissed()
    ensures Run(0, [UP] + Code) == (0, 0)
  {
    var keys := [UP] + Code;
    assert keys[..3] == [UP, UP, UP];
    assert Run(0, [UP, UP, UP]) == (0, 0) by {
      assert [UP][1..] == [];
      assert Run(2, [UP]) == (0, 0);
      assert [UP, UP][1..] == [UP];
      assert Run(1, [UP, UP]) == (0, 0);
      assert [UP, UP, UP][1..] == [UP, UP];
    }
    var rest := keys[3..];
    assert rest == Code[2..];
    assert keys == [UP, UP, UP] + rest;
    RunAppend(0, [UP, UP, UP], rest);
    NoStartNoFire(rest);
  }

  /** From the start, keys that never begin the code (no UP) never fire. */
  lemma {:induction false} NoStartNoFire(keys: seq<int>)
    requires forall k :: 0 <= k < |keys| ==> keys[k] != UP
    ensures Run(0, keys) == (0, 0)
    decreases |keys|
  {
    if keys != [] {
      assert keys[0] != UP;
      NoStartNoFire(keys[1..]);
    }
  }

  /** The recogniser: `index` is the position reached in the code. */
  class Konami {
    var index: nat
    /** How many times `action` has run. */
    var activations: nat

    ghost predicate Valid()
      reads this
    {
      index < |Code|
    }

    constructor ()
      ensures Valid() && index == 0 && activations == 0
    {
      index := 0;
      activations := 0;
    }

    /** `handleKeypress(key)`: advance, and when the code is complete run the
        action and start over. */
    method HandleKeypress(key: int) returns (activated: bool)
      requires Valid()
      modifies this
      ensures Valid()
      ensures activated <==> old(index) == |Code| - 1 && key == ENTER
      ensures index == Next(old(index), key)
      ensures activations == old(activations) + (if activated then 1 else 0)
    {
      index := Advance(index, key);
      activated := false;
      if index == |Code| {
        activations := activations + 1;
        activated := true;
        index := 0;
      }
      FiresExactly(old(index), key);
    }
  }
}
