/**
 * The string list the tokenizer collects an option's values in.  It always
 * holds at least one value: the one it was created with.  Further values go
 * to an overflow list that is created on the first `Add`, so the overflow
 * list is either absent or non-empty.
 */
module OptimizedList {
  import opened Wrappers

  class SingleOptimizedList {
    const firstValue: string
    var restValues: Option<seq<string>>

    ghost predicate Valid()
      reads this
    {
      restValues.Some? ==> |restValues.value| > 0
    }

    /** What enumeration yields: the first value, then the overflow values in order. */
    function Items(): (r: seq<string>)
      reads this
      ensures |r| >= 1 && r[0] == firstValue
    {
      [firstValue] + restValues.GetOr([])
    }

    constructor (firstValue: string)
      ensures Valid() && this.firstValue == firstValue
      ensures Items() == [firstValue] && Count() == 1
    {
      this.firstValue := firstValue;
      restValues := None;
    }

    /** `Add(null)` throws and changes nothing; any other value goes to the end. */
    method Add(value: Option<string>) returns (r: Outcome)
      requires Valid()
      modifies this
      ensures Valid()
      ensures value.None? ==> r == Fail(ArgumentNull) && restValues == old(restValues)
      ensures value.Some? ==> r == Pass && Items() == old(Items()) + [value.value]
      ensures value.Some? ==> Count() == old(Count()) + 1
    {
      if value.None? {
        return Fail(ArgumentNull);
      }
      if restValues.None? {
        restValues := Some([value.value]);
      } else {
        restValues := Some(restValues.value + [value.value]);
      }
      r := Pass;
    }

    /** `Count`: one plus the size of the overflow list; it is the number of enumerated values. */
    function Count(): (n: int)
      reads this
      ensures n >= 1 && n == |Items()|
    {
      match restValues
      case None => 1
      case Some(rest) => |rest| + 1
    }

    /**
     * The indexer: 0 is the first value; any other index goes to the
     * overflow list, which throws `NullReferenceException` when there is
     * none and `ArgumentOutOfRangeException` past its end.
     */
    function At(index: int): (r: Result<string>)
      reads this
      requires Valid()
      ensures r.Success? <==> 0 <= index < Count()
      ensures r.Success? ==> r.value == Items()[index]
      ensures r.Failure? ==> r.error == (if restValues.None? then NullReference else ArgumentOutOfRange)
      ensures r == ElementAt(Items(), index)
    {
      if index == 0 then Success(firstValue)
      else if restValues.None? then Failure(NullReference)
      else if 0 <= index - 1 < |restValues.value| then Success(restValues.value[index - 1])
      else Failure(ArgumentOutOfRange)
    }
  }

  /**
   * The indexer on the enumerated values alone: the overflow list is absent
   * exactly when there is one value.
   */
  function ElementAt(items: seq<string>, index: int): (r: Result<string>)
    requires |items| >= 1
    ensures r.Success? <==> 0 <= index < |items|
    ensures r.Success? ==> r.value == items[index]
    ensures r.Failure? ==> r.error == (if |items| == 1 then NullReference else ArgumentOutOfRange)
  {
    if index == 0 then Success(items[0])
    else if |items| == 1 then Failure(NullReference)
    else if 1 <= index < |items| then Success(items[index])
    else Failure(ArgumentOutOfRange)
  }
}
