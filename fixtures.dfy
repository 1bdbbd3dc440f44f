/** The behaviour the crate's regression tests pin down, as lemmas: the
    `skip`/`skip_backward` traces over a ten-variant enum and the tables
    the derive builds for the test enums `Numbers`, `Letters` and `Outer`. */
module Fixtures {
  import opened Wrappers
  import opened EnumCycles
  import opened EnumCyclesDerive

  /** The indices visited by applying `skip` (or `skip_backward`) with each
      step in `steps` in turn, starting at `start`. */
  function Trace(start: nat, steps: seq<nat>, size: nat, forward: bool): (r: seq<nat>)
    requires start < size
    ensures |r| == |steps|
    ensures forall i :: 0 <= i < |r| ==> r[i] < size
    decreases |steps|
  {
    if steps == [] then []
    else
      var next := if forward then SkipIndex(start, steps[0], size) else SkipBackwardIndex(start, steps[0], size);
      [next] + Trace(next, steps[1..], size, forward)
  }

  /** One step of a trace. */
  lemma TraceCons(start: nat, step: nat, rest: seq<nat>, size: nat, forward: bool)
    requires start < size
    ensures Trace(start, [step] + rest, size, forward)
      == var next := if forward then SkipIndex(start, step, size) else SkipBackwardIndex(start, step, size);
         [next] + Trace(next, rest, size, forward)
  {
    assert ([step] + rest)[0] == step;
    assert ([step] + rest)[1..] == rest;
  }

  /** Tracing two step lists one after the other is tracing their concatenation. */
  lemma {:induction false} TraceAppend(start: nat, a: seq<nat>, b: seq<nat>, size: nat, forward: bool)
    requires start < size && |a| >= 1
    ensures Trace(start, a + b, size, forward)
      == Trace(start, a, size, forward) + Trace(Trace(start, a, size, forward)[|a| - 1], b, size, forward)
    decreases |a|
  {
    var next := if forward then SkipIndex(start, a[0], size) else SkipBackwardIndex(start, a[0], size);
    SplitHead(a, b);
    TraceCons(start, a[0], a[1..] + b, size, forward);
    TraceCons(start, a[0], a[1..], size, forward);
    var ta := Trace(next, a[1..], size, forward);
    assert Trace(start, a, size, forward) == [next] + ta;
    if |a| > 1 {
      TraceAppend(next, a[1..], b, size, forward);
      var tb := Trace(ta[|a| - 2], b, size, forward);
      assert Trace(start, a + b, size, forward) == [next] + (ta + tb);
      assert ([next] + ta)[|a| - 1] == ta[|a| - 2];
      ConcatAssoc([next], ta, tb);
    } else {
      assert a[1..] + b == b;
      assert ta == [];
    }
  }

  /** Concatenation is associative. */
  lemma ConcatAssoc<T>(x: seq<T>, y: seq<T>, z: seq<T>)
    ensures x + (y + z) == (x + y) + z
  {
  }

  /** Five calls with the same step, as each round of the tests makes. */
  function Round(k: nat): seq<nat> {
    [k, k, k, k, k]
  }

  /** The steps of the tests: five calls with 1, then five with 2, ..., then five with 5. */
  const TestSteps: seq<nat> := Round(1) + (Round(2) + (Round(3) + (Round(4) + Round(5))))

  /** `test_skip`: from `Zero` in a ten-value enum. */
  lemma SkipRegressionTrace()
    ensures Trace(0, TestSteps, 10, true) ==
      [1, 2, 3, 4, 5] +
      ([7, 9, 0, 2, 4] +
      ([7, 9, 0, 3, 6] +
      ([9, 0, 4, 8, 9] +
      [0, 5, 9, 0, 5])))
  {
    SkipChunk5();
    SkipChunk4();
    TraceAppend(6, Round(4), Round(5), 10, true);
    SkipChunk3();
    TraceAppend(4, Round(3), Round(4) + Round(5), 10, true);
    SkipChunk2();
    TraceAppend(5, Round(2), Round(3) + (Round(4) + Round(5)), 10, true);
    SkipChunk1();
    TraceAppend(0, Round(1), Round(2) + (Round(3) + (Round(4) + Round(5))), 10, true);
  }

  /** `test_skip_backward`: from `Nine` in a ten-value enum. */
  lemma SkipBackwardRegressionTrace()
    ensures Trace(9, TestSteps, 10, false) ==
      [8, 7, 6, 5, 4] +
      ([2, 0, 9, 7, 5] +
      ([2, 0, 9, 6, 3] +
      ([0, 9, 5, 1, 0] +
      [9, 4, 0, 9, 4])))
  {
    SkipBackwardChunk5();
    SkipBackwardChunk4();
    TraceAppend(3, Round(4), Round(5), 10, false);
    SkipBackwardChunk3();
    TraceAppend(5, Round(3), Round(4) + Round(5), 10, false);
    SkipBackwardChunk2();
    TraceAppend(4, Round(2), Round(3) + (Round(4) + Round(5)), 10, false);
    SkipBackwardChunk1();
    TraceAppend(9, Round(1), Round(2) + (Round(3) + (Round(4) + Round(5))), 10, false);
  }

  // The five calls with each step, one lemma per step size.

  lemma SkipChunk1()
    ensures Trace(0, Round(1), 10, true) == [1, 2, 3, 4, 5]
  {
  }

  lemma SkipChunk2()
    ensures Trace(5, Round(2), 10, true) == [7, 9, 0, 2, 4]
  {
  }

  lemma SkipChunk3()
    ensures Trace(4, Round(3), 10, true) == [7, 9, 0, 3, 6]
  {
  }

  lemma SkipChunk4()
    ensures Trace(6, Round(4), 10, true) == [9, 0, 4, 8, 9]
  {
  }

  lemma SkipChunk5()
    ensures Trace(9, Round(5), 10, true) == [0, 5, 9, 0, 5]
  {
  }

  lemma SkipBackwardChunk1()
    ensures Trace(9, Round(1), 10, false) == [8, 7, 6, 5, 4]
  {
  }

  lemma SkipBackwardChunk2()
    ensures Trace(4, Round(2), 10, false) == [2, 0, 9, 7, 5]
  {
  }

  lemma SkipBackwardChunk3()
    ensures Trace(5, Round(3), 10, false) == [2, 0, 9, 6, 3]
  {
  }

  lemma SkipBackwardChunk4()
    ensures Trace(3, Round(4), 10, false) == [0, 9, 5, 1, 0]
  {
  }

  lemma SkipBackwardChunk5()
    ensures Trace(0, Round(5), 10, false) == [9, 4, 0, 9, 4]
  {
  }

  // The test enums. Spans are arbitrary distinct locations.

  /** The names of `Numbers`' variants, in order. */
  const NumbersNameList: seq<string> := ["Zero", "One", "Two", "Three", "Four", "Five", "Six", "Seven", "Eight", "Nine"]

  /** `#[default(One)] enum Numbers { Zero, One, ..., Nine }`: ten unit
      variants, the i-th named `NumbersNameList[i]`. */
  const Numbers: DeriveInput := DeriveInput(
    "Numbers",
    [Attribute(Some("default"), ["(One)"], 1)],
    Enum(seq(10, i requires 0 <= i < 10 => Variant(NumbersNameList[i], [], [], 10 + i))),
    2)

  /** `enum Letters { A, B, C }` */
  const Letters: DeriveInput := DeriveInput(
    "Letters",
    [],
    Enum([Variant("A", [], [], 30), Variant("B", [], [], 31), Variant("C", [], [], 32)]),
    3)

  /** `#[auto] enum Outer { #[last] NumLast(Numbers), #[default(B)] LetManual(Letters),
      NumAuto(Numbers), LetAuto(Letters) }` */
  const Outer: DeriveInput := DeriveInput(
    "Outer",
    [Attribute(Some("auto"), [], 4)],
    Enum([
      Variant("NumLast", ["Numbers"], [Attribute(Some("last"), [], 41)], 40),
      Variant("LetManual", ["Letters"], [Attribute(Some("default"), ["(B)"], 43)], 42),
      Variant("NumAuto", ["Numbers"], [], 44),
      Variant("LetAuto", ["Letters"], [], 45)
    ]),
    5)

  /** `test_properties`: the tables derived for `Numbers`. */
  lemma NumbersTables()
    ensures DeriveEnumCycle(Numbers).Ok?
    ensures var m := DeriveEnumCycle(Numbers).value;
      m.names == NumbersNameList
      && m.first == Unit("Numbers", "Zero") && m.last == Unit("Numbers", "Nine")
      && m.size == 10 && m.default == Verbatim(["(One)"])
    ensures DeriveEnumCycle(Numbers).value.values == NumbersValues
  {
    var vs := Numbers.data.variants;
    assert FirstTopLevel(Numbers.attrs) == Err(NoneFound) by {
      FirstTopLevelCons(Numbers.attrs[0], []);
      assert Numbers.attrs == [Numbers.attrs[0]] + [];
    }
    assert forall i :: 0 <= i < |vs| ==> Resolves(Numbers, vs[i]);
    assert DeriveEnumCycle(Numbers).Ok?;
    NumbersNames();
    NumbersConstants();
    NumbersImplValues();
  }

  /** `Numbers::values()` as `test_properties` expects it. */
  const NumbersValues: seq<Ctor> := [
    Unit("Numbers", "Zero"), Unit("Numbers", "One"), Unit("Numbers", "Two"),
    Unit("Numbers", "Three"), Unit("Numbers", "Four"), Unit("Numbers", "Five"),
    Unit("Numbers", "Six"), Unit("Numbers", "Seven"), Unit("Numbers", "Eight"),
    Unit("Numbers", "Nine")]

  /** The value table `impl_enum_cycle` builds for `Numbers`. */
  lemma NumbersImplValues()
    requires forall i :: 0 <= i < |Numbers.data.variants| ==> Constructible(Numbers, Numbers.data.variants[i])
    ensures ImplEnumCycle(Numbers, Numbers.data.variants).values == NumbersValues
  {
  }

  /** The name table `impl_enum_cycle` builds for `Numbers`. */
  lemma NumbersNames()
    requires forall i :: 0 <= i < |Numbers.data.variants| ==> Constructible(Numbers, Numbers.data.variants[i])
    ensures ImplEnumCycle(Numbers, Numbers.data.variants).names == NumbersNameList
  {
  }

  /** The first, last and default constants `impl_enum_cycle` builds for `Numbers`. */
  lemma NumbersConstants()
    requires forall i :: 0 <= i < |Numbers.data.variants| ==> Constructible(Numbers, Numbers.data.variants[i])
    ensures var m := ImplEnumCycle(Numbers, Numbers.data.variants);
      m.first == Unit("Numbers", "Zero") && m.last == Unit("Numbers", "Nine")
      && m.size == 10 && m.default == Verbatim(["(One)"])
  {
  }

  /** Without a top-level `default`, the default of `Letters` is its first value. */
  lemma LettersTables()
    ensures DeriveEnumCycle(Letters).Ok?
    ensures var m := DeriveEnumCycle(Letters).value;
      m.names == ["A", "B", "C"] && m.size == 3
      && m.default == Construct(Unit("Letters", "A")) && m.last == Unit("Letters", "C")
  {
  }

  /** `test_defaults`: `#[last]` and `#[default(B)]` on a variant override the
      enum's `#[auto]`, which takes each field type's `_DEFAULT`. With the
      tables of `Numbers` and `Letters` above, these are
      `NumLast(Nine)`, `LetManual(B)`, `NumAuto(One)` and `LetAuto(A)`. */
  lemma OuterValues()
    ensures DeriveEnumCycle(Outer).Ok?
    ensures DeriveEnumCycle(Outer).value.values == OuterValueList
  {
    OuterDerives();
    OuterImplValues();
  }

  /** Every variant of `Outer` resolves, so the derive succeeds with the
      implementation `impl_enum_cycle` builds. */
  lemma OuterDerives()
    ensures forall i :: 0 <= i < |Outer.data.variants| ==> Constructible(Outer, Outer.data.variants[i])
    ensures DeriveEnumCycle(Outer) == Ok(ImplEnumCycle(Outer, Outer.data.variants))
  {
    OuterAttributes();
    assert forall i :: 0 <= i < |Outer.data.variants| ==> Resolves(Outer, Outer.data.variants[i]);
  }

  /** The value table `impl_enum_cycle` builds for `Outer`. */
  lemma OuterImplValues()
    requires forall i :: 0 <= i < |Outer.data.variants| ==> Constructible(Outer, Outer.data.variants[i])
    ensures ImplEnumCycle(Outer, Outer.data.variants).values == OuterValueList
  {
    var m := ImplEnumCycle(Outer, Outer.data.variants);
    ImplEnumCycleTables(Outer, Outer.data.variants);
    OuterConstructors();
    SeqOfFour(m.values, OuterValueList);
  }

  /** `Outer::values()`: the representative values `test_defaults` relies on. */
  const OuterValueList: seq<Ctor> := [
    PerField("Outer", "NumLast", [LastOf("Numbers")]),
    Explicit("Outer", "LetManual", ["(B)"]),
    PerField("Outer", "NumAuto", [DefaultOf("Numbers")]),
    PerField("Outer", "LetAuto", [DefaultOf("Letters")])]

  /** Two four-element sequences that agree at every position are equal. */
  lemma SeqOfFour<T>(s: seq<T>, t: seq<T>)
    requires |s| == 4 && |t| == 4
    requires s[0] == t[0] && s[1] == t[1] && s[2] == t[2] && s[3] == t[3]
    ensures s == t
  {
  }

  /** What each variant of `Outer` resolves to. */
  lemma OuterAttributes()
    ensures GetAttrType(Outer, Outer.data.variants[0]) == Ok(Last)
    ensures GetAttrType(Outer, Outer.data.variants[1]) == Ok(Default(["(B)"]))
    ensures GetAttrType(Outer, Outer.data.variants[2]) == Ok(Auto)
    ensures GetAttrType(Outer, Outer.data.variants[3]) == Ok(Auto)
  {
  }

  /** The representative value of each variant of `Outer`. */
  lemma OuterConstructors()
    ensures GetConstructor(Outer, Outer.data.variants[0]) == PerField("Outer", "NumLast", [LastOf("Numbers")])
    ensures GetConstructor(Outer, Outer.data.variants[1]) == Explicit("Outer", "LetManual", ["(B)"])
    ensures GetConstructor(Outer, Outer.data.variants[2]) == PerField("Outer", "NumAuto", [DefaultOf("Numbers")])
    ensures GetConstructor(Outer, Outer.data.variants[3]) == PerField("Outer", "LetAuto", [DefaultOf("Letters")])
  {
    OuterAttributes();
  }

  /** A client of the runtime: `previous` after `next` restores the index,
      from the class contracts alone. */
  method NextThenPrevious<T>(s: EnumState<T>)
    requires s.Valid()
    modifies s
    ensures s.Valid() && s.Index() == old(s.Index())
  {
    ghost var start := s.Index();
    s.Next();
    s.Previous();
    NextPreviousInverse(start, s.table.size);
  }
}
