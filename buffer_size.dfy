/**
 * The process-wide buffer-size setting of the Python bindings: a module-level
 * integer with a getter/setter that reports the previous value, and a scoped
 * override that puts the previous value back when its body ends.
 *
 * The module global becomes the one field of a `Setting` object.
 */
module BufferSize {

  /** The value the setting holds before anyone changes it. */
  const InitialSize: int := 1024

  /** What `buffer_size(size)` leaves in the setting: only a positive size replaces it. */
  function Updated(current: int, size: int): (r: int)
    ensures size > 0 ==> r == size
    ensures size <= 0 ==> r == current
  {
    if size > 0 then size else current
  }

  /** The setting after a sequence of `buffer_size` calls, in order. */
  function ApplyAll(current: int, sizes: seq<int>): int
    decreases |sizes|
  {
    if sizes == [] then current else ApplyAll(Updated(current, sizes[0]), sizes[1..])
  }

  /** Starting from a positive value, the setting never becomes zero or negative. */
  lemma {:induction false} UpdatesStayPositive(current: int, sizes: seq<int>)
    requires current > 0
    ensures ApplyAll(current, sizes) > 0
    decreases |sizes|
  {
    if sizes != [] {
      UpdatesStayPositive(Updated(current, sizes[0]), sizes[1..]);
    }
  }

  /** One more call at the end of a sequence of calls acts on the value the sequence left. */
  lemma {:induction false} ApplyAllSnoc(current: int, sizes: seq<int>, size: int)
    ensures ApplyAll(current, sizes + [size]) == Updated(ApplyAll(current, sizes), size)
    decreases |sizes|
  {
    if sizes != [] {
      assert (sizes + [size])[1..] == sizes[1..] + [size];
      ApplyAllSnoc(Updated(current, sizes[0]), sizes[1..], size);
    }
  }

  /** The outcome of the body of a `with scoped_buffer_size(...)` block. */
  datatype BodyOutcome = Returned | Raised

  class Setting {
    var value: int

    /** The stored value is always positive, so restoring a saved value always takes effect. */
    ghost predicate Valid()
      reads this
    {
      value > 0
    }

    constructor ()
      ensures Valid() && value == InitialSize
    {
      value := InitialSize;
    }

    /**
     * `buffer_size(size)`: returns the value held before the call; a positive `size`
     * replaces it, zero (the default) or a negative size leaves it as it is.
     */
    method BufferSize(size: int) returns (previous: int)
      requires Valid()
      modifies this
      ensures Valid()
      ensures previous == old(value)
      ensures value == Updated(old(value), size)
    {
      previous := value;
      if size > 0 {
        value := size;
      }
    }

    /**
     * `with scoped_buffer_size(size): body`. The body is modelled by the sizes it
     * passes to `buffer_size`, in order, and by whether it ends by raising. On entry
     * the setting becomes `Updated(old value, size)`; on exit, normal or not, the
     * value saved on entry is put back.
     */
    method ScopedBufferSize(size: int, bodyCalls: seq<int>, bodyOutcome: BodyOutcome)
        returns (inBody: int, atBodyEnd: int, outcome: BodyOutcome)
      requires Valid()
      modifies this
      ensures Valid()
      ensures inBody == Updated(old(value), size)
      ensures atBodyEnd == ApplyAll(inBody, bodyCalls)
      ensures value == old(value)
      ensures outcome == bodyOutcome
    {
      var saved := BufferSize(size);
      inBody := value;
      // the body
      var i := 0;
      while i < |bodyCalls|
        invariant 0 <= i <= |bodyCalls|
        invariant Valid()
        invariant saved == old(value)
        invariant value == ApplyAll(inBody, bodyCalls[..i])
      {
        ApplyAllSnoc(inBody, bodyCalls[..i], bodyCalls[i]);
        assert bodyCalls[..i + 1] == bodyCalls[..i] + [bodyCalls[i]];
        var _ := BufferSize(bodyCalls[i]);
        i := i + 1;
      }
      assert bodyCalls[..i] == bodyCalls;
      atBodyEnd := value;
      // `finally`: runs whether the body returned or raised
      var _ := BufferSize(saved);
      outcome := bodyOutcome;
    }
  }
}
