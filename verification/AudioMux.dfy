/** Choosing an audio input (module-audio/Audio/AudioMux.cpp) and the wrapping tokens that name the inputs
    (audio::Token in AudioCommon.hpp). */
module AudioMux {
  import opened Options

  datatype PlaybackType =
    | NoPlayback | Multimedia | Notifications | KeypadSound | CallRingtone | TextMessageRingtone | Meditation | Alarm
    | PreWakeUp | Snooze | FocusTimer | Bedtime

  // Numerically PlaybackType::Last, the priority of everything without one of its own.
  const LAST := 11

  // The smaller the number, the more important.
  function Priority(t: PlaybackType): nat {
    match t
    case Meditation => 1
    case CallRingtone => 2
    case Alarm => 3
    case Multimedia => 4
    case TextMessageRingtone => 5
    case Notifications => 5
    case KeypadSound => 6
    case _ => LAST
  }

  predicate IsMergable(t: PlaybackType) {
    t == NoPlayback || t == Notifications || t == KeypadSound || t == TextMessageRingtone
  }

  datatype AudioState = Idle | Playback | Recording | Routing

  datatype Input = Input(state: AudioState, playback: PlaybackType, token: int, vibrationOn: bool)

  // ----- Choosing an input

  predicate Busy(i: Input) { i.state != Idle }

  // A busy input that must not be taken for a request of type t.
  predicate Outranks(i: Input, t: PlaybackType) { Busy(i) && Priority(t) > Priority(i.playback) }

  // A busy input the request's sound merges with.
  predicate Merges(i: Input, t: PlaybackType) { Busy(i) && i.playback == t && IsMergable(t) }

  // The scan ends at the first input that outranks the request or merges with it.
  predicate Stops(i: Input, t: PlaybackType) { Outranks(i, t) || Merges(i, t) }

  // k is the last idle input below n.
  ghost predicate LastIdle(inputs: seq<Input>, n: nat, k: nat) {
    k < n <= |inputs| && !Busy(inputs[k]) && forall i :: k < i < n ==> Busy(inputs[i])
  }

  // The outcome of a scan that ended at `stop`: none if it met an input that outranks the request; else the last idle
  // input met; else none if it met one to merge with; else the last input.
  ghost predicate Chosen(inputs: seq<Input>, t: PlaybackType, r: Option<nat>, stop: nat) {
    && stop <= |inputs| && (forall i :: 0 <= i < stop ==> !Stops(inputs[i], t))
    && (stop < |inputs| ==> Stops(inputs[stop], t))
    && (if stop < |inputs| && Outranks(inputs[stop], t) then r == None
        else if exists i :: 0 <= i < stop && !Busy(inputs[i]) then r.Some? && LastIdle(inputs, stop, r.value)
        else r == if stop < |inputs| || inputs == [] then None else Some(|inputs| - 1))
  }

  method GetAvailableInput(inputs: seq<Input>, t: PlaybackType) returns (r: Option<nat>)
    ensures exists stop :: Chosen(inputs, t, r, stop)
  {
    var idleInput: Option<nat> := None;
    var overridableInput: Option<nat> := None;
    for i := 0 to |inputs|
      invariant forall k :: 0 <= k < i ==> !Stops(inputs[k], t)
      invariant idleInput.Some? ==> LastIdle(inputs, i, idleInput.value)
      invariant idleInput.None? ==> forall k :: 0 <= k < i ==> Busy(inputs[k])
      invariant idleInput.None? ==> overridableInput == if i == 0 then None else Some(i - 1)
    {
      if inputs[i].state != Idle {
        if Priority(t) > Priority(inputs[i].playback) {
          assert Chosen(inputs, t, None, i);
          return None;
        } else if inputs[i].playback == t && IsMergable(inputs[i].playback) {
          r := if idleInput.Some? then idleInput else None;
          assert Chosen(inputs, t, r, i);
          return;
        }
        overridableInput := Some(i);
      } else {
        idleInput := Some(i);
      }
    }
    r := if idleInput.Some? then idleInput else overridableInput;
    assert Chosen(inputs, t, r, |inputs|);
  }

  // For a sound that does not merge: refused exactly when there is no input or a busy one outranks it; an idle input is
  // preferred, and is the last one; a busy one is taken only when all are busy.
  lemma NonMergableChoice(inputs: seq<Input>, t: PlaybackType, r: Option<nat>, stop: nat)
    requires Chosen(inputs, t, r, stop) && !IsMergable(t)
    ensures r.None? <==> inputs == [] || exists i :: 0 <= i < |inputs| && Outranks(inputs[i], t)
    ensures r.Some? && (exists i :: 0 <= i < |inputs| && !Busy(inputs[i])) ==> LastIdle(inputs, |inputs|, r.value)
    ensures r.Some? && (forall i :: 0 <= i < |inputs| ==> Busy(inputs[i])) ==> r.value == |inputs| - 1
    ensures r.Some? ==> !Outranks(inputs[r.value], t)
  {
    if stop < |inputs| {
      assert Outranks(inputs[stop], t);
    } else {
      assert forall i :: 0 <= i < |inputs| ==> !Stops(inputs[i], t);
    }
  }

  // For one that does: once the scan meets a busy input of the same type, no busy input is taken over.
  lemma MergableNeverOverrides(inputs: seq<Input>, t: PlaybackType, r: Option<nat>, stop: nat)
    requires Chosen(inputs, t, r, stop) && stop < |inputs| && Merges(inputs[stop], t)
    ensures r.Some? ==> !Busy(inputs[r.value]) && r.value < stop
    ensures r.None? <==> forall i :: 0 <= i < stop ==> Busy(inputs[i])
  {
  }

  // ----- Who yields to whom

  // The sounds by importance; all others come after these.
  const RANKS: seq<set<PlaybackType>> :=
    [{Meditation}, {CallRingtone}, {Alarm}, {Multimedia}, {TextMessageRingtone, Notifications}, {KeypadSound}]

  // A busy input playing u holds off t exactly when u has a rank and t a later one or none.
  lemma OutranksByRank(i: Input, t: PlaybackType)
    ensures Outranks(i, t) <==>
            Busy(i) && exists k :: 0 <= k < |RANKS| && i.playback in RANKS[k]
                                   && forall m :: 0 <= m <= k ==> t !in RANKS[m]
  {
    var u := i.playback;
    assert u in RANKS[0] || u in RANKS[1] || u in RANKS[2] || u in RANKS[3] || u in RANKS[4] || u in RANKS[5]
           || Priority(u) == LAST;
  }

  // A call takes any input over, unless a busy one plays a meditation.
  lemma OnlyMeditationHoldsOffCalls(inputs: seq<Input>, r: Option<nat>, stop: nat)
    requires Chosen(inputs, CallRingtone, r, stop) && inputs != []
    ensures r.None? <==> exists i :: 0 <= i < |inputs| && Busy(inputs[i]) && inputs[i].playback == Meditation
  {
    NonMergableChoice(inputs, CallRingtone, r, stop);
  }

  // A sound that finds the only input busy with its own kind takes it over, except the short ones, which merge.
  lemma RepeatedSound(t: PlaybackType, i: Input, r: Option<nat>, stop: nat)
    requires Busy(i) && i.playback == t && Chosen([i], t, r, stop)
    ensures r == if t in {NoPlayback, Notifications, KeypadSound, TextMessageRingtone} then None else Some(0)
  {
    assert [i][0] == i;
  }

  // The first input in one of the given states.
  method GetInputInState(inputs: seq<Input>, states: set<AudioState>) returns (r: Option<nat>)
    ensures r.Some? ==> r.value < |inputs| && inputs[r.value].state in states
                        && forall i :: 0 <= i < r.value ==> inputs[i].state !in states
    ensures r.None? ==> forall i :: 0 <= i < |inputs| ==> inputs[i].state !in states
  {
    for i := 0 to |inputs|
      invariant forall k :: 0 <= k < i ==> inputs[k].state !in states
    {
      if inputs[i].state in states {
        return Some(i);
      }
    }
    return None;
  }

  method GetPlaybackInput(inputs: seq<Input>, t: PlaybackType) returns (r: Option<nat>)
    ensures (exists i :: 0 <= i < |inputs| && inputs[i].state in {Routing, Recording}) ==> r == None
    ensures (forall i :: 0 <= i < |inputs| ==> inputs[i].state !in {Routing, Recording}) ==>
              exists stop :: Chosen(inputs, t, r, stop)
  {
    var busy := GetInputInState(inputs, {Routing, Recording});
    if busy.Some? {
      return None;
    }
    r := GetAvailableInput(inputs, t);
  }

  // An input already routing, or, when forced, the first of those with the largest priority number. The source takes
  // front() of the inputs when forced, so there must be one.
  method GetRoutingInput(inputs: seq<Input>, force: bool) returns (r: Option<nat>)
    requires force ==> inputs != []
    ensures r.Some? ==> r.value < |inputs|
    ensures (exists i :: 0 <= i < |inputs| && inputs[i].state == Routing) ==>
              r.Some? && inputs[r.value].state == Routing && forall i :: 0 <= i < r.value ==> inputs[i].state != Routing
    ensures (forall i :: 0 <= i < |inputs| ==> inputs[i].state != Routing) ==>
              && r.Some? == force
              && (r.Some? ==>
                    && (forall i :: 0 <= i < |inputs| ==> Priority(inputs[i].playback) <= Priority(inputs[r.value].playback))
                    && (forall i :: 0 <= i < r.value ==> Priority(inputs[i].playback) < Priority(inputs[r.value].playback)))
  {
    r := GetInputInState(inputs, {Routing});
    if r.Some? || !force {
      return;
    }
    var low := 0;
    for i := 0 to |inputs|
      invariant 0 <= low < |inputs| && (low < i || low == 0)
      invariant forall k :: 0 <= k < i ==> Priority(inputs[k].playback) <= Priority(inputs[low].playback)
      invariant forall k :: 0 <= k < low ==> Priority(inputs[k].playback) < Priority(inputs[low].playback)
    {
      if Priority(inputs[i].playback) > Priority(inputs[low].playback) {
        low := i;
      }
    }
    r := Some(low);
  }

  // ----- Tokens

  const MAX_TOKEN := 32767
  const UNINITIALIZED := -1

  predicate ValidToken(t: int) { t > UNINITIALIZED }

  function IncrementToken(t: int): int {
    if t == MAX_TOKEN then 0 else t + 1
  }

  function Incremented(t: int, n: nat): int {
    if n == 0 then t else IncrementToken(Incremented(t, n - 1))
  }

  // n increments of an uninitialised or valid token are addition modulo 32768.
  lemma {:induction false} IncrementsAreModular(t: int, n: nat)
    requires UNINITIALIZED <= t <= MAX_TOKEN && 0 < n
    ensures Incremented(t, n) == (t + n) % (MAX_TOKEN + 1)
    decreases n
  {
    if n > 1 {
      IncrementsAreModular(t, n - 1);
    }
  }

  lemma SameResidueIff(a: int, b: int)
    ensures a % (MAX_TOKEN + 1) == b % (MAX_TOKEN + 1) <==> (b - a) % (MAX_TOKEN + 1) == 0
  {
  }

  // Any 32768 increments in a row give valid tokens, all different; the next one repeats.
  lemma ConsecutiveTokensDistinct(t: int, i: nat, j: nat)
    requires UNINITIALIZED <= t <= MAX_TOKEN && 0 < i < j
    ensures ValidToken(Incremented(t, i)) && Incremented(t, i) <= MAX_TOKEN
    ensures Incremented(t, i) == Incremented(t, j) <==> (j - i) % (MAX_TOKEN + 1) == 0
    ensures j - i <= MAX_TOKEN ==> Incremented(t, i) != Incremented(t, j)
  {
    hide Incremented;
    IncrementsAreModular(t, i);
    IncrementsAreModular(t, j);
    SameResidueIff(t + i, t + j);
  }

  // The mux's tokens. `stamps` remembers, for each input, the number of the increment that made its token.
  datatype Mux = Mux(refToken: int, tokens: seq<int>, increments: nat, stamps: seq<nat>)

  // ResetInput: the next token, given to the input if there is one.
  function ResetInput(m: Mux, input: Option<nat>): Mux
    requires |m.tokens| == |m.stamps|
  {
    var t := IncrementToken(m.refToken);
    if input.Some? && input.value < |m.tokens| then
      Mux(t, m.tokens[input.value := t], m.increments + 1, m.stamps[input.value := m.increments + 1])
    else m.(refToken := t, increments := m.increments + 1)
  }

  // The constructor gives each new input the next token.
  function AddInput(m: Mux): Mux {
    var t := IncrementToken(m.refToken);
    Mux(t, m.tokens + [t], m.increments + 1, m.stamps + [m.increments + 1])
  }

  const NO_INPUTS := Mux(UNINITIALIZED, [], 0, [])

  datatype Op = Add | ResetOne(input: Option<nat>)

  ghost predicate Stamped(m: Mux) {
    && |m.tokens| == |m.stamps|
    && m.refToken == Incremented(UNINITIALIZED, m.increments)
    && (forall i :: 0 <= i < |m.stamps| ==>
          0 < m.stamps[i] <= m.increments && m.tokens[i] == Incremented(UNINITIALIZED, m.stamps[i]))
    && (forall i, j :: 0 <= i < j < |m.stamps| ==> m.stamps[i] != m.stamps[j])
  }

  ghost function Run(m: Mux, ops: seq<Op>): (out: Mux)
    requires Stamped(m)
    ensures Stamped(out)
    decreases |ops|
  {
    if ops == [] then m
    else
      StepStamped(m, ops[0]);
      Run(if ops[0].Add? then AddInput(m) else ResetInput(m, ops[0].input), ops[1..])
  }

  lemma StepStamped(m: Mux, op: Op)
    requires Stamped(m)
    ensures Stamped(if op.Add? then AddInput(m) else ResetInput(m, op.input))
  {
  }

  function Lookup(tokens: seq<int>, t: int): (r: Option<nat>)
    ensures r.Some? ==> ValidToken(t) && r.value < |tokens| && tokens[r.value] == t
                        && forall i :: 0 <= i < r.value ==> tokens[i] != t
    ensures r.None? && ValidToken(t) ==> t !in tokens
  {
    if tokens == [] || !ValidToken(t) then None
    else if tokens[0] == t then Some(0)
    else
      var r := Lookup(tokens[1..], t);
      if r.Some? then Some(r.value + 1) else None
  }

  // The second of two inputs with one token cannot be looked up; and that is exactly when increments 32768, or a
  // multiple, apart made them.
  lemma TokensCollideIff(ops: seq<Op>, i: nat, j: nat)
    requires var m := Run(NO_INPUTS, ops); i < |m.tokens| && j < |m.tokens| && m.stamps[i] < m.stamps[j]
    ensures var m := Run(NO_INPUTS, ops);
            m.tokens[i] == m.tokens[j] <==> (m.stamps[j] - m.stamps[i]) % (MAX_TOKEN + 1) == 0
  {
    var m := Run(NO_INPUTS, ops);
    ConsecutiveTokensDistinct(UNINITIALIZED, m.stamps[i], m.stamps[j]);
  }

  function Resets(input: nat, n: nat): seq<Op> {
    if n == 0 then [] else [ResetOne(Some(input))] + Resets(input, n - 1)
  }

  lemma IncrementFirst(t: int, n: nat)
    ensures Incremented(IncrementToken(t), n) == Incremented(t, n + 1)
  {
    if n != 0 {
      IncrementFirst(t, n - 1);
    }
  }

  lemma {:induction false} ResetsGiveLatestToken(m: Mux, input: nat, n: nat)
    requires Stamped(m) && input < |m.tokens| && 0 < n
    ensures Run(m, Resets(input, n)).tokens == m.tokens[input := Incremented(m.refToken, n)]
    decreases n
  {
    var m1 := ResetInput(m, Some(input));
    StepStamped(m, ResetOne(Some(input)));
    assert Resets(input, n)[1..] == Resets(input, n - 1);
    assert Incremented(m.refToken, 1) == IncrementToken(Incremented(m.refToken, 0));
    if n == 1 {
      assert Resets(input, 0) == [];
    } else {
      ResetsGiveLatestToken(m1, input, n - 1);
      IncrementFirst(m.refToken, n - 1);
    }
  }

  lemma TwoInputsThenResets(n: nat)
    requires 0 < n
    ensures Run(NO_INPUTS, [Add, Add] + Resets(0, n)).tokens == [(1 + n) % (MAX_TOKEN + 1), 1]
  {
    var one, two := AddInput(NO_INPUTS), AddInput(AddInput(NO_INPUTS));
    var ops := [Add, Add] + Resets(0, n);
    StepStamped(NO_INPUTS, Add);
    StepStamped(one, Add);
    assert two.tokens == [0, 1] && two.refToken == 1;
    assert ops[1..] == [Add] + Resets(0, n) && ops[1..][1..] == Resets(0, n);
    ResetsGiveLatestToken(two, 0, n);
    IncrementsAreModular(1, n);
  }

  // Two inputs, and the first reset 32768 times: both have token 1, and looking up the second's finds the first.
  lemma TokensCanCollide()
    ensures var m := Run(NO_INPUTS, [Add, Add] + Resets(0, MAX_TOKEN + 1));
            m.tokens == [1, 1] && Lookup(m.tokens, m.tokens[1]) == Some(0)
  {
    hide Run;
    hide Resets;
    TwoInputsThenResets(MAX_TOKEN + 1);
  }

  ghost predicate AllFresh(m: Mux) {
    forall i :: 0 <= i < |m.stamps| ==> m.increments - m.stamps[i] <= MAX_TOKEN
  }

  // Tokens are pairwise different, and looking one up finds its owner.
  ghost predicate NameOwners(tokens: seq<int>) {
    && (forall i, j :: 0 <= i < j < |tokens| ==> tokens[i] != tokens[j])
    && (forall i :: 0 <= i < |tokens| ==> Lookup(tokens, tokens[i]) == Some(i))
  }

  lemma FreshTokensNameOwners(m: Mux)
    requires Stamped(m) && AllFresh(m)
    ensures NameOwners(m.tokens)
  {
    forall i, j | 0 <= i < j < |m.tokens|
      ensures m.tokens[i] != m.tokens[j]
    {
      assert m.stamps[i] != m.stamps[j];
      if m.stamps[i] < m.stamps[j] {
        ConsecutiveTokensDistinct(UNINITIALIZED, m.stamps[i], m.stamps[j]);
      } else {
        ConsecutiveTokensDistinct(UNINITIALIZED, m.stamps[j], m.stamps[i]);
      }
    }
    forall i | 0 <= i < |m.tokens|
      ensures Lookup(m.tokens, m.tokens[i]) == Some(i)
    {
      ConsecutiveTokensDistinct(UNINITIALIZED, m.stamps[i], m.stamps[i] + 1);
      assert m.tokens[i] in m.tokens;
      assert m.tokens[Lookup(m.tokens, m.tokens[i]).value] == m.tokens[i];
    }
  }

  // So it is on every run in which no token is more than 32767 increments old.
  lemma TokensNameOwnersInEveryRun(ops: seq<Op>)
    requires AllFresh(Run(NO_INPUTS, ops))
    ensures NameOwners(Run(NO_INPUTS, ops).tokens)
  {
    FreshTokensNameOwners(Run(NO_INPUTS, ops));
  }

  // The mux itself. Building it and resetting inputs moves its tokens as above.
  class AudioMux {
    var refToken: int
    var audioInputs: seq<Input>
    ghost var increments: nat
    ghost var stamps: seq<nat>

    ghost function View(): Mux
      reads this
    {
      Mux(refToken, Tokens(audioInputs), increments, stamps)
    }

    constructor (audioInputsCount: nat)
      ensures Stamped(View()) && |audioInputs| == if audioInputsCount > 0 then audioInputsCount else 1
      ensures NameOwners(Tokens(audioInputs)) || MAX_TOKEN + 1 < |audioInputs|
    {
      refToken, audioInputs, increments, stamps := UNINITIALIZED, [], 0, [];
      new;
      assert Stamped(View());
      hide Stamped;
      var count := if audioInputsCount > 0 then audioInputsCount else 1;
      for i := 0 to count
        invariant Stamped(View()) && |audioInputs| == |stamps| == i == increments
        invariant forall k :: 0 <= k < i ==> stamps[k] == k + 1
      {
        ghost var before := View();
        StepStamped(before, Add);
        refToken := IncrementToken(refToken);
        audioInputs := audioInputs + [Input(Idle, NoPlayback, refToken, false)];
        increments := increments + 1;
        stamps := stamps + [increments];
        assert Tokens(audioInputs) == before.tokens + [refToken];
      }
      if count <= MAX_TOKEN + 1 {
        FreshTokensNameOwners(View());
      }
    }

    method Reset(input: Option<nat>) returns (token: int)
      requires Stamped(View()) && (input.Some? ==> input.value < |audioInputs|)
      modifies this
      ensures Stamped(View()) && View() == ResetInput(old(View()), input)
      ensures token == refToken == (old(refToken) + 1) % (MAX_TOKEN + 1)
      ensures audioInputs == if input.None? then old(audioInputs) else
                var was := old(audioInputs)[input.value];
                old(audioInputs)[input.value := was.(token := token, vibrationOn := false)]
    {
      StepStamped(View(), ResetOne(input));
      if 0 < increments {
        IncrementsAreModular(UNINITIALIZED, increments);
      }
      refToken := IncrementToken(refToken);
      token := refToken;
      increments := increments + 1;
      if input.Some? {
        audioInputs := audioInputs[input.value := audioInputs[input.value].(token := token, vibrationOn := false)];
        stamps := stamps[input.value := increments];
      }
    }
  }

  function Tokens(inputs: seq<Input>): (tokens: seq<int>)
    ensures |tokens| == |inputs| && forall i :: 0 <= i < |inputs| ==> tokens[i] == inputs[i].token
  {
    seq(|inputs|, i requires 0 <= i < |inputs| => inputs[i].token)
  }
}
