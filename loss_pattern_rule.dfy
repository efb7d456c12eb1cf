/**
 * Drops packets following a fixed bit pattern of 1 to 64 positions, one position
 * per packet, cycling (LossPatternRule.cs).
 */
module LossPatternRule {
  import ActionMask
  import opened RuleStates
  import opened ActionResults

  /** The state LossPattern works on: a pattern of 1..64 bits and a position inside it. */
  predicate Shaped(s: RuleState) {
    s.payload.Pattern? && 1 <= s.payload.patternLength <= 64
    && 0 <= s.payload.patternIndex < s.payload.patternLength
  }

  /** Bit `i` of the pattern, counted from the least significant bit, says "drop". */
  predicate DropsAt(pattern: bv64, i: int)
    requires 0 <= i < 64
  {
    (pattern >> i) & 1 == 1
  }

  function CreateState(pattern: bv64, length: int): (s: RuleState)
    ensures Shaped(s)
    ensures s.payload.patternMask == pattern && s.payload.patternIndex == 0
    ensures 1 <= length <= 64 ==> s.payload.patternLength == length
    ensures length < 1 ==> s.payload.patternLength == 1
    ensures length > 64 ==> s.payload.patternLength == 64
    ensures s.lastTick == 0 && s.counter == 0
  {
    var clamped := if length < 1 then 1 else if length > 64 then 64 else length;
    RuleState(0, 0, Pattern(pattern, 0, clamped))
  }

  /** Stepping past the last position of the pattern wraps to 0; any other step adds one. */
  lemma WrapsAtLength(index: int, length: int)
    requires 0 <= index < length
    ensures (index + 1) % length == if index + 1 == length then 0 else index + 1
  {
  }

  /** Reads the current pattern bit, then moves to the next position, wrapping at the length. */
  function Evaluate(s: RuleState, r: ActionResult): (e: Evaluation)
    requires Shaped(s)
    ensures Shaped(e.state)
    ensures e.mask == if DropsAt(s.payload.patternMask, s.payload.patternIndex)
                      then ActionMask.Drop else ActionMask.None
    ensures e.state.payload.patternIndex
         == if s.payload.patternIndex + 1 == s.payload.patternLength then 0
            else s.payload.patternIndex + 1
    ensures e.state.payload.patternMask == s.payload.patternMask
    ensures e.state.payload.patternLength == s.payload.patternLength
    ensures e.state.lastTick == s.lastTick && e.state.counter == s.counter + 1
    ensures e.result == r
  {
    var index := s.payload.patternIndex;
    var shouldDrop := DropsAt(s.payload.patternMask, index);
    WrapsAtLength(index, s.payload.patternLength);
    var next := s.payload.(patternIndex := (index + 1) % s.payload.patternLength);
    Evaluation(if shouldDrop then ActionMask.Drop else ActionMask.None,
               Counted(s).(payload := next), r)
  }

  /** The state after `k` packets. */
  function After(s: RuleState, k: nat): (t: RuleState)
    requires Shaped(s)
    ensures Shaped(t)
    ensures t.payload.patternMask == s.payload.patternMask
    ensures t.payload.patternLength == s.payload.patternLength
    decreases k
  {
    if k == 0 then s else After(Evaluate(s, Create()).state, k - 1)
  }

  /** The masks returned for `n` consecutive packets. */
  function Run(s: RuleState, n: nat): (ms: seq<ActionMask.Bits>)
    requires Shaped(s)
    ensures |ms| == n
    decreases n
  {
    if n == 0 then [] else [Evaluate(s, Create()).mask] + Run(Evaluate(s, Create()).state, n - 1)
  }

  lemma {:induction false} AfterAdds(s: RuleState, a: nat, b: nat)
    requires Shaped(s)
    ensures After(s, a + b) == After(After(s, a), b)
    decreases a
  {
    if a > 0 {
      AfterAdds(Evaluate(s, Create()).state, a - 1, b);
    }
  }

  /** Without wrapping, `k` packets advance the position by exactly `k`. */
  lemma {:induction false} AfterAdvances(s: RuleState, k: nat)
    requires Shaped(s) && s.payload.patternIndex + k < s.payload.patternLength
    ensures After(s, k).payload.patternIndex == s.payload.patternIndex + k
    decreases k
  {
    if k > 0 {
      AfterAdvances(Evaluate(s, Create()).state, k - 1);
    }
  }

  /** One packet moves the position on by one, wrapping at the end. */
  lemma AfterOne(s: RuleState)
    requires Shaped(s)
    ensures After(s, 1).payload.patternIndex
         == if s.payload.patternIndex + 1 == s.payload.patternLength then 0 else s.payload.patternIndex + 1
  {
    assert After(s, 1) == Evaluate(s, Create()).state;
  }

  /** The packets left to the end of the pattern bring the position back to 0. */
  lemma WrapsToZero(s: RuleState)
    requires Shaped(s)
    ensures After(s, s.payload.patternLength - s.payload.patternIndex).payload.patternIndex == 0
  {
    var len, i := s.payload.patternLength, s.payload.patternIndex;
    AfterAdvances(s, len - 1 - i);
    AfterAdds(s, len - 1 - i, 1);
    AfterOne(After(s, len - 1 - i));
  }

  /** The position comes back to where it started after `patternLength` packets. */
  lemma PositionIsPeriodic(s: RuleState)
    requires Shaped(s)
    ensures After(s, s.payload.patternLength).payload == s.payload
  {
    var len, i := s.payload.patternLength, s.payload.patternIndex;
    WrapsToZero(s);
    var t := After(s, len - i);
    AfterAdvances(t, i);
    AfterAdds(s, len - i, i);
    var u := After(s, len);
    assert u == After(t, i);
    assert u.payload.patternIndex == i;
    assert u.payload == Pattern(s.payload.patternMask, i, len);
  }

  /** Packet `j` of a run is dropped exactly when the pattern bit at the position reached after `j` packets is set. */
  lemma {:induction false} RunFollowsPattern(s: RuleState, n: nat, j: nat)
    requires Shaped(s) && j < n
    ensures Run(s, n)[j] == if DropsAt(s.payload.patternMask, After(s, j).payload.patternIndex)
                            then ActionMask.Drop else ActionMask.None
    decreases j
  {
    if j > 0 {
      RunFollowsPattern(Evaluate(s, Create()).state, n - 1, j - 1);
    }
  }

  /** The drop decisions repeat with period `patternLength`. */
  lemma RunIsPeriodic(s: RuleState, n: nat, j: nat)
    requires Shaped(s) && j + s.payload.patternLength < n
    ensures Run(s, n)[j + s.payload.patternLength] == Run(s, n)[j]
  {
    RunFollowsPattern(s, n, j);
    RunFollowsPattern(s, n, j + s.payload.patternLength);
    AfterAdds(s, j, s.payload.patternLength);
    PositionIsPeriodic(After(s, j));
  }

  /** Pattern 0b1010 of length 4 passes, drops, passes, drops. */
  lemma AlternatingPattern()
    ensures Run(CreateState(0xA, 4), 4)
         == [ActionMask.None, ActionMask.Drop, ActionMask.None, ActionMask.Drop]
  {
    var s := CreateState(0xA, 4);
    forall j | 0 <= j < 4
      ensures Run(s, 4)[j] == [ActionMask.None, ActionMask.Drop, ActionMask.None, ActionMask.Drop][j]
    {
      RunFollowsPattern(s, 4, j);
      AfterAdvances(s, j);
    }
  }
}
