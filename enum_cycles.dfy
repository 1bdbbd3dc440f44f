/** The runtime half: the `EnumState` trait's default methods.

    A type deriving `EnumState` supplies a table of constants (`_NAMES`,
    `_VALUES`, `_DEFAULT`, `_FIRST`, `_LAST`, `_SIZE`) and an `index`
    dispatch; the trait moves a value through the table with `skip` and
    `skip_backward`, which clamp an overshoot to the boundary and wrap only
    from the boundary itself. */
module EnumCycles {
  import opened Wrappers

  /** The associated constants of one `EnumState` implementation. */
  datatype Table<T> = Table(names: seq<string>, values: seq<T>, default: T, first: T, last: T, size: nat)
  {
    /** What every derived implementation guarantees of its constants. */
    ghost predicate Valid() {
      size >= 1 && |names| == size && |values| == size
      && first == values[0] && last == values[size - 1]
    }
  }

  /** The new index `skip(num)` computes from `index` in a table of `size` values. */
  function SkipIndex(index: nat, num: nat, size: nat): (r: nat)
    requires index < size
    ensures r < size
  {
    var max := size - 1;
    var sum := index + num;
    if index == max then 0
    else if sum > max then max
    else sum % size
  }

  /** The new index `skip_backward(num)` computes from `index`. */
  function SkipBackwardIndex(index: nat, num: nat, size: nat): (r: nat)
    requires index < size
    ensures r < size
  {
    if num == 0 then index
    else if index > num - 1 then index - num
    else if index == 0 then size - 1
    else 0
  }

  /** Away from the last index, `skip` is a saturating add: it never wraps. */
  lemma SkipSaturates(index: nat, num: nat, size: nat)
    requires index < size - 1
    ensures SkipIndex(index, num, size) == if index + num < size - 1 then index + num else size - 1
  {
    if index + num <= size - 1 {
      assert (index + num) % size == index + num;
    }
  }

  /** From the last index, `skip` goes to the first one, whatever the step, 0 included. */
  lemma SkipFromLastWraps(num: nat, size: nat)
    requires size >= 1
    ensures SkipIndex(size - 1, num, size) == 0
  {
  }

  /** Away from index 0, a non-zero `skip_backward` is a saturating subtraction. */
  lemma SkipBackwardSaturates(index: nat, num: nat, size: nat)
    requires 0 < index < size
    ensures SkipBackwardIndex(index, num, size) == if index >= num then index - num else 0
  {
  }

  /** From index 0, any non-zero `skip_backward` goes to the last index;
      `skip_backward(0)` changes nothing anywhere. */
  lemma SkipBackwardFromFirstWraps(index: nat, num: nat, size: nat)
    requires index < size
    ensures num == 0 ==> SkipBackwardIndex(index, num, size) == index
    ensures num >= 1 && index == 0 ==> SkipBackwardIndex(index, num, size) == size - 1
  {
  }

  /** A step of one moves to the following index, or from the last one to 0. */
  lemma NextStep(index: nat, size: nat)
    requires index < size
    ensures SkipIndex(index, 1, size) == if index + 1 == size then 0 else index + 1
  {
    if index + 1 < size {
      assert (index + 1) % size == index + 1;
    }
  }

  /** A step of one is the cyclic successor: the two-tier policy agrees with
      modular arithmetic when `num == 1`. */
  lemma NextIsSuccessor(index: nat, size: nat)
    requires index < size
    ensures SkipIndex(index, 1, size) == (index + 1) % size
  {
    if index < size - 1 {
      assert (index + 1) % size == index + 1;
    } else {
      assert index + 1 == size;
    }
  }

  /** A backward step of one is the cyclic predecessor. */
  lemma PreviousIsPredecessor(index: nat, size: nat)
    requires index < size
    ensures SkipBackwardIndex(index, 1, size) == (index + size - 1) % size
  {
    if index == 0 {
      assert (size - 1) % size == size - 1;
    } else {
      assert (index + size - 1) % size == index - 1;
    }
  }

  /** `previous` undoes `next` and `next` undoes `previous`. */
  lemma NextPreviousInverse(index: nat, size: nat)
    requires index < size
    ensures SkipBackwardIndex(SkipIndex(index, 1, size), 1, size) == index
    ensures SkipIndex(SkipBackwardIndex(index, 1, size), 1, size) == index
  {
    NextIsSuccessor(index, size);
    PreviousIsPredecessor(index, size);
  }

  /** The index after `k` calls of `next` from `index`. */
  function NextTimes(index: nat, k: nat, size: nat): (r: nat)
    requires index < size
    ensures r < size
    decreases k
  {
    if k == 0 then index else NextTimes(SkipIndex(index, 1, size), k - 1, size)
  }

  /** Position `x` folded back into `0..size-1` by repeated subtraction,
      the cyclic reading of an index that ran past the end. */
  function Wrap(x: nat, size: nat): (r: nat)
    requires size > 0
    ensures r < size
    decreases x
  {
    if x < size then x else Wrap(x - size, size)
  }

  /** `k` calls of `next` advance the index by `k` around the cycle. */
  lemma {:induction false} NextTimesAdvances(index: nat, k: nat, size: nat)
    requires index < size
    ensures NextTimes(index, k, size) == Wrap(index + k, size)
    decreases k
  {
    if k > 0 {
      var j := SkipIndex(index, 1, size);
      NextStep(index, size);
      NextTimesAdvances(j, k - 1, size);
      if index + 1 == size {
        assert Wrap(index + k, size) == Wrap(k - 1, size);
      } else {
        assert j + (k - 1) == index + k;
      }
    }
  }

  /** Calling `next` `size` times comes back to where it started. */
  lemma NextCycleReturns(index: nat, size: nat)
    requires index < size
    ensures NextTimes(index, size, size) == index
  {
    NextTimesAdvances(index, size, size);
  }

  /** Every slot of the table sends back its own position under `indexOf`. */
  ghost predicate IndexConsistent<T>(table: Table<T>, indexOf: T -> nat)
  {
    forall i :: 0 <= i < |table.values| ==> indexOf(table.values[i]) == i
  }

  /** A value of a type that implements `EnumState`, held in a mutable place.
      `indexOf` is the implementation's generated `index` dispatch. */
  class EnumState<T> {
    const table: Table<T>
    const indexOf: T -> nat
    var state: T

    ghost predicate Valid()
      reads this
    {
      table.Valid() && IndexConsistent(table, indexOf) && indexOf(state) < table.size
    }

    constructor (table: Table<T>, indexOf: T -> nat, initial: T)
      requires table.Valid() && IndexConsistent(table, indexOf)
      requires indexOf(initial) < table.size
      ensures Valid()
      ensures this.table == table && this.indexOf == indexOf && state == initial
    {
      this.table := table;
      this.indexOf := indexOf;
      state := initial;
    }

    /** `index(&self)`: the position of the current variant. */
    function Index(): nat
      reads this
    {
      indexOf(state)
    }

    /** `names()`: one name per value. */
    function Names(): (r: seq<string>)
      requires table.Valid()
      ensures |r| == Size()
    {
      table.names
    }

    /** `values()`: the representative value of every variant, in order. */
    function Values(): (r: seq<T>)
      requires table.Valid()
      ensures |r| == Size() && r[0] == First() && r[Size() - 1] == Last()
    {
      table.values
    }

    /** `default()`: the enum's default value. */
    function Default(): T
    {
      table.default
    }

    /** `first()`: the value listed first. */
    function First(): (r: T)
      requires table.Valid()
      ensures r == table.values[0]
    {
      table.first
    }

    /** `last()`: the value listed last. */
    function Last(): (r: T)
      requires table.Valid()
      ensures r == table.values[|table.values| - 1]
    {
      table.last
    }

    /** `size()`: the number of variants. */
    function Size(): (r: nat)
      requires table.Valid()
      ensures r >= 1 && r == |table.names| == |table.values|
    {
      table.size
    }

    /** `from_index(i)`: the value at position `i`, if there is one. */
    function FromIndex(i: nat): (r: Option<T>)
      requires table.Valid()
      ensures r.Some? <==> i < Size()
      ensures r.Some? ==> r.value == table.values[i]
    {
      if i < table.size then Some(table.values[i]) else None
    }

    /** `skip(num)`: moves forward `num` values, clamping at the last value
        and wrapping only from it. The new value is the table's
        representative of the new variant. */
    method Skip(num: nat)
      requires Valid()
      modifies this
      ensures Valid()
      ensures Index() == SkipIndex(old(Index()), num, Size())
      ensures state == table.values[Index()]
    {
      var index := Index();
      var size := table.size;
      var max := size - 1;
      var sum := index + num;
      if index == max {
        index := 0;
      } else if sum > max {
        index := max;
      } else {
        index := sum % size;
      }
      var v := FromIndex(index);
      state := v.value;
    }

    /** `skip_backward(num)`: moves back `num` values, clamping at the first
        value and wrapping only from it; `num == 0` changes nothing. */
    method SkipBackward(num: nat)
      requires Valid()
      modifies this
      ensures Valid()
      ensures Index() == SkipBackwardIndex(old(Index()), num, Size())
      ensures num == 0 ==> state == old(state)
      ensures num != 0 ==> state == table.values[Index()]
    {
      var index := Index();
      var size := table.size;
      if num == 0 {
        return;
      } else if index > num - 1 {
        index := index - num;
      } else if index == 0 {
        index := size - 1;
      } else {
        index := 0;
      }
      var v := FromIndex(index);
      state := v.value;
    }

    /** `next()`: `skip(1)`, which steps around the cycle. */
    method Next()
      requires Valid()
      modifies this
      ensures Valid()
      ensures Index() == SkipIndex(old(Index()), 1, Size())
      ensures Index() == (old(Index()) + 1) % Size()
      ensures state == table.values[Index()]
    {
      NextIsSuccessor(Index(), table.size);
      Skip(1);
    }

    /** `previous()`: `skip_backward(1)`, which steps back around the cycle. */
    method Previous()
      requires Valid()
      modifies this
      ensures Valid()
      ensures Index() == SkipBackwardIndex(old(Index()), 1, Size())
      ensures Index() == (old(Index()) + Size() - 1) % Size()
      ensures state == table.values[Index()]
    {
      PreviousIsPredecessor(Index(), table.size);
      SkipBackward(1);
    }
  }
}
