/** The screen stack of `MainViewModel`: the current screen is the last one
    pushed; the stack starts with the home screen. */
module Screens {
  import opened Results

  /** `mutableStateListOf(HomeScreen(this))`: the home screen alone, and
      current. */
  function InitialStack<S>(home: S): (r: seq<S>)
    ensures |r| == 1 && Current(r) == Some(home)
  {
    [home]
  }

  /** `screens.lastOrNull()`. */
  function Current<S>(stack: seq<S>): (r: Option<S>)
    ensures r.None? <==> |stack| == 0
    ensures r.Some? ==> r.value == stack[|stack| - 1]
  {
    if |stack| == 0 then None else Some(stack[|stack| - 1])
  }

  /** `push`: the pushed screen becomes current, the others stay below it. */
  function Push<S>(stack: seq<S>, screen: S): (r: seq<S>)
    ensures |r| == |stack| + 1 && r[..|stack|] == stack
    ensures Current(r) == Some(screen)
  {
    stack + [screen]
  }

  /** `pop`: `removeLast()` throws on an empty list (`None` here); otherwise
      the current screen is dropped and the rest is unchanged. */
  function Pop<S>(stack: seq<S>): (r: Option<seq<S>>)
    ensures r.None? <==> |stack| == 0
    ensures r.Some? ==> r.value + [stack[|stack| - 1]] == stack
  {
    if |stack| == 0 then None else Some(stack[..|stack| - 1])
  }

  /** Popping right after a push returns to the stack before it. */
  lemma PopAfterPush<S>(stack: seq<S>, screen: S)
    ensures Pop(Push(stack, screen)) == Some(stack)
  {
    assert (stack + [screen])[..|stack|] == stack;
  }

  /** Pushing back the screen just popped restores the stack. */
  lemma PushAfterPop<S>(stack: seq<S>)
    requires |stack| > 0
    ensures Push(Pop(stack).value, Current(stack).value) == stack
  {
  }

  /** From any stack, `n` pushes then `n` pops return to that stack. */
  lemma {:induction false} PushesThenPops<S>(stack: seq<S>, screens: seq<S>)
    ensures PopN(PushAll(stack, screens), |screens|) == Some(stack)
    decreases |screens|
  {
    if |screens| > 0 {
      var last := screens[|screens| - 1];
      var init := screens[..|screens| - 1];
      assert PushAll(stack, screens) == Push(PushAll(stack, init), last);
      PopAfterPush(PushAll(stack, init), last);
      PushesThenPops(stack, init);
    }
  }

  function PushAll<S>(stack: seq<S>, screens: seq<S>): seq<S>
    decreases |screens|
  {
    if |screens| == 0 then stack
    else Push(PushAll(stack, screens[..|screens| - 1]), screens[|screens| - 1])
  }

  function PopN<S>(stack: seq<S>, n: nat): Option<seq<S>>
    decreases n
  {
    if n == 0 then Some(stack)
    else
      match Pop(stack)
      case None => None
      case Some(rest) => PopN(rest, n - 1)
  }

  /** From the initial stack, as many pops as pushes bring the home screen
      back as the current screen. */
  lemma BackToHome<S>(home: S, screens: seq<S>)
    ensures var back := PopN(PushAll(InitialStack(home), screens), |screens|);
      back == Some(InitialStack(home)) && Current(back.value) == Some(home)
  {
    PushesThenPops(InitialStack(home), screens);
  }
}
