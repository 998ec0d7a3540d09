/** The machine: a list of rotors (leftmost first), a reflector and a
    plugboard.  `step_rotors` turns the rotors in place; `Encryption` threads
    one character through plugboard, rotors right to left, reflector, rotors
    left to right and plugboard again, the return pass updating each rotor as
    it goes. */
module Circuit {
  import opened Outcomes
  import opened Seqs
  import opened Strings
  import opened Rotors
  import Plugboards
  import Reflectors

  /** Every rotor state holds a 26-letter wiring. */
  predicate Wired(vs: seq<RotorState>) {
    forall j :: 0 <= j < |vs| ==> IsWiring(vs[j].wiring)
  }

  /** Every window shows one letter. */
  predicate LetterWindows(vs: seq<RotorState>) {
    forall j :: 0 <= j < |vs| ==> IsLetterString(vs[j].window)
  }

  /** `b` holds the same rotors as `a`: models, wirings and positions agree;
      windows and flags may differ. */
  predicate SameRotors(a: seq<RotorState>, b: seq<RotorState>) {
    && |a| == |b|
    && forall j :: 0 <= j < |a| ==>
         b[j].model == a[j].model && b[j].wiring == a[j].wiring && b[j].position == a[j].position
  }

  // ---------------------------------------------------------------------
  // step_rotors

  /** The loop of `step_rotors` from index `i` down to 1: rotor `k` steps when
      its left neighbour's pass flag is set.  A window missing from the
      contact string stops it, keeping the steps already taken. */
  function Cascade(vs: seq<RotorState>, i: nat): (r: (seq<RotorState>, Result<()>))
    requires i < |vs|
    ensures SameRotors(vs, r.0)
    decreases i
  {
    if i == 0 then (vs, Ok(()))
    else if !vs[i - 1].pass then Cascade(vs, i - 1)
    else match Advance(vs[i].window)
      case None => (vs, Err(SubstringNotFound))
      case Some(w) => Cascade(vs[i := vs[i].(window := w)], i - 1)
  }

  /** One round of the cascade at rotor `i`, by the flag of rotor `i - 1`. */
  lemma CascadeStep(vs: seq<RotorState>, i: nat)
    requires 0 < i < |vs|
    ensures !vs[i - 1].pass ==> Cascade(vs, i) == Cascade(vs, i - 1)
    ensures vs[i - 1].pass && Advance(vs[i].window).None? ==> Cascade(vs, i) == (vs, Err(SubstringNotFound))
    ensures vs[i - 1].pass && Advance(vs[i].window).Some? ==>
              Cascade(vs, i) == Cascade(vs[i := vs[i].(window := Advance(vs[i].window).value)], i - 1)
  {
  }

  /** `EnigmaCircuit.step_rotors`: the cascade, then the last rotor steps.
      An empty rotor list fails at `Rotors[-1]`. */
  function StepRotorsOf(vs: seq<RotorState>): (r: (seq<RotorState>, Result<()>))
    ensures SameRotors(vs, r.0)
    ensures Wired(vs) ==> Wired(r.0)
    ensures |vs| == 0 ==> r.1 == Err(EmptyRotorList)
  {
    if |vs| == 0 then (vs, Err(EmptyRotorList))
    else
      var cascade := Cascade(vs, |vs| - 1);
      if cascade.1.Err? then cascade
      else StepLast(cascade.0)
  }

  /** `self.Rotors[-1].step()`. */
  function StepLast(ws: seq<RotorState>): (r: (seq<RotorState>, Result<()>))
    requires |ws| > 0
    ensures SameRotors(ws, r.0)
  {
    match Advance(ws[|ws| - 1].window)
    case None => (ws, Err(SubstringNotFound))
    case Some(w) => (ws[|ws| - 1 := ws[|ws| - 1].(window := w)], Ok(()))
  }

  /** The last rotor of a letter window turns by one place. */
  lemma StepLastTurned(ws: seq<RotorState>, w: string, n: int)
    requires |ws| > 0 && IsLetterString(w) && ws[|ws| - 1].window == Turned(w, n)
    ensures StepLast(ws) == (ws[|ws| - 1 := ws[|ws| - 1].(window := Turned(w, n + 1))], Ok(()))
  {
    AdvanceTurned(w, n);
  }

  /** How many places the cascade from `i` turns rotor `j`: one when
      1 <= j <= i and rotor `j - 1` has its flag set. */
  function Nudge(vs: seq<RotorState>, i: nat, j: nat): nat
    requires j < |vs|
  {
    if 1 <= j <= i && vs[j - 1].pass then 1 else 0
  }

  /** How many places `step_rotors` turns rotor `j`: the cascade's nudge, and
      one more for the last rotor. */
  function Steps(vs: seq<RotorState>, j: nat): nat
    requires j < |vs|
  {
    Nudge(vs, |vs| - 1, j) + (if j == |vs| - 1 then 1 else 0)
  }

  /** One round of the cascade with a letter window at `i`. */
  lemma CascadeUnfold(vs: seq<RotorState>, i: nat)
    requires 0 < i < |vs| && IsLetterString(vs[i].window)
    ensures Cascade(vs, i) == Cascade(vs[i := vs[i].(window := Turned(vs[i].window, Nudge(vs, i, i)))], i - 1)
  {
    if !vs[i - 1].pass {
      TurnedZero(vs[i].window);
      assert vs[i := vs[i]] == vs;
    }
  }

  /** With letter windows the cascade never fails. */
  lemma {:induction false} CascadeSucceeds(vs: seq<RotorState>, i: nat)
    requires i < |vs| && LetterWindows(vs)
    ensures Cascade(vs, i).1 == Ok(())
    decreases i
  {
    if i > 0 {
      var vs' := vs[i := vs[i].(window := Turned(vs[i].window, Nudge(vs, i, i)))];
      CascadeUnfold(vs, i);
      CascadeSucceeds(vs', i - 1);
    }
  }

  /** With letter windows the cascade from `i` turns rotor `j` by its nudge
      and changes nothing else about it. */
  lemma {:induction false} CascadeWindow(vs: seq<RotorState>, i: nat, j: nat)
    requires i < |vs| && j < |vs| && LetterWindows(vs)
    ensures Cascade(vs, i).0[j] == vs[j].(window := Turned(vs[j].window, Nudge(vs, i, j)))
    decreases i
  {
    if i == 0 {
      TurnedZero(vs[j].window);
    } else {
      var w := Turned(vs[i].window, Nudge(vs, i, i));
      var vs' := vs[i := vs[i].(window := w)];
      CascadeUnfold(vs, i);
      CascadeWindow(vs', i - 1, j);
      if j == i {
        TurnedZero(w);
      } else if j > 0 {
        assert vs'[j - 1].pass == vs[j - 1].pass;
      }
    }
  }

  /** `step_rotors` on letter windows: it succeeds, rotor `j` turns by
      `Steps(vs, j)` places, and nothing else changes. */
  lemma StepRotorsEffect(vs: seq<RotorState>)
    requires |vs| > 0 && LetterWindows(vs)
    ensures StepRotorsOf(vs).1 == Ok(())
    ensures forall j :: 0 <= j < |vs| ==>
              StepRotorsOf(vs).0[j] == vs[j].(window := Turned(vs[j].window, Steps(vs, j)))
  {
    var n := |vs|;
    StepRotorsUnfold(vs);
    CascadeWindow(vs, n - 1, n - 1);
    StepLastTurned(Cascade(vs, n - 1).0, vs[n - 1].window, Nudge(vs, n - 1, n - 1));
    forall j | 0 <= j < n
      ensures StepRotorsOf(vs).0[j] == vs[j].(window := Turned(vs[j].window, Steps(vs, j)))
    {
      StepRotorsAt(vs, j);
    }
  }

  /** On letter windows the cascade succeeds and the last rotor then steps. */
  lemma StepRotorsUnfold(vs: seq<RotorState>)
    requires |vs| > 0 && LetterWindows(vs)
    ensures Cascade(vs, |vs| - 1).1 == Ok(())
    ensures StepRotorsOf(vs) == StepLast(Cascade(vs, |vs| - 1).0)
  {
    CascadeSucceeds(vs, |vs| - 1);
  }

  /** Rotor `j` after `step_rotors` on letter windows. */
  lemma StepRotorsAt(vs: seq<RotorState>, j: nat)
    requires j < |vs| && LetterWindows(vs)
    ensures StepRotorsOf(vs).0[j] == vs[j].(window := Turned(vs[j].window, Steps(vs, j)))
  {
    var n := |vs|;
    var ws := Cascade(vs, n - 1).0;
    StepRotorsUnfold(vs);
    CascadeWindow(vs, n - 1, j);
    assert ws[j] == vs[j].(window := ws[j].window);
    if j < n - 1 {
      assert StepLast(ws).0[j] == ws[j];
    } else {
      StepLastTurned(ws, vs[j].window, Nudge(vs, n - 1, j));
    }
  }

  // ---------------------------------------------------------------------
  // Encryption

  /** The forward loop from rotor `i - 1` down to rotor 0: each applies its
      entry conversion; the first failure ends the pass. */
  function ForwardOf(vs: seq<RotorState>, i: nat, character: string): (r: Result<string>)
    requires Wired(vs) && i <= |vs|
    ensures r.Ok? && i > 0 ==> IsLetterString(r.value)
    ensures LetterWindows(vs) && IsLetterString(character) ==> r.Ok? && IsLetterString(r.value)
    decreases i
  {
    if i == 0 then Ok(character)
    else match EntryOf(vs[i - 1], character)
      case Err(e) => Err(e)
      case Ok(d) => ForwardOf(vs, i - 1, [d])
  }

  /** One round of the forward pass at rotor `i - 1`, when its entry
      conversion succeeds. */
  lemma ForwardUnfold(vs: seq<RotorState>, i: nat, character: string)
    requires Wired(vs) && 0 < i <= |vs| && EntryOf(vs[i - 1], character).Ok?
    ensures ForwardOf(vs, i, character) == ForwardOf(vs, i - 1, [EntryOf(vs[i - 1], character).value])
  {
  }

  /** The return loop from rotor `j` to the last: each applies its exit
      conversion, which may update it.  The first failure ends the pass,
      keeping the updates already made. */
  function BackwardOf(vs: seq<RotorState>, j: nat, character: string): (r: (seq<RotorState>, Result<string>))
    requires Wired(vs) && j <= |vs|
    ensures SameRotors(vs, r.0) && Wired(r.0)
    ensures r.1.Ok? && j < |vs| ==> IsLetterString(r.1.value)
    decreases |vs| - j
  {
    if j == |vs| then (vs, Ok(character))
    else
      var (s, out) := ExitOf(vs[j], character);
      if out.Err? then (vs, Err(out.error))
      else BackwardOf(vs[j := s], j + 1, [out.value])
  }

  /** One round of the return pass at rotor `j`: a failure leaves the
      states as they are, a success moves on to rotor `j + 1`. */
  lemma BackwardUnfold(vs: seq<RotorState>, j: nat, character: string)
    requires Wired(vs) && j < |vs|
    ensures Wired(vs[j := ExitOf(vs[j], character).0])
    ensures ExitOf(vs[j], character).1.Err? ==>
              && vs[j := ExitOf(vs[j], character).0] == vs
              && BackwardOf(vs, j, character) == (vs, Err(ExitOf(vs[j], character).1.error))
    ensures ExitOf(vs[j], character).1.Ok? ==>
              BackwardOf(vs, j, character)
                == BackwardOf(vs[j := ExitOf(vs[j], character).0], j + 1, [ExitOf(vs[j], character).1.value])
  {
    var (s, out) := ExitOf(vs[j], character);
    if out.Err? {
      assert vs[j := s] == vs;
    }
  }

  /** The part of `Encryption` between the two plugboard passes, on rotors
      already stepped: forward pass, reflector, return pass. */
  function RoundTrip(vs: seq<RotorState>, reflector: Reflectors.Reflector, character: string): (r: (seq<RotorState>, Result<string>))
    requires Wired(vs) && reflector.Valid()
    ensures SameRotors(vs, r.0)
    ensures |vs| > 0 && ForwardOf(vs, |vs|, character).Ok? ==>
              Reflectors.Reflect(reflector, ForwardOf(vs, |vs|, character).value).Ok?
    ensures |vs| > 0 && r.1.Ok? ==> IsLetterString(r.1.value)
  {
    match ForwardOf(vs, |vs|, character)
    case Err(e) => (vs, Err(e))
    case Ok(c2) =>
      match Reflectors.Reflect(reflector, c2)
      case Err(e) => (vs, Err(e))
      case Ok(c3) => BackwardOf(vs, 0, [c3])
  }

  /** `EnigmaCircuit.Encryption`: the rotor states afterwards and the output.
      A failure leaves the rotors as far as they got. */
  function EncryptOf(vs: seq<RotorState>, reflector: Reflectors.Reflector,
                     plugboard: Plugboards.Plugboard, character: string): (r: (seq<RotorState>, Result<string>))
    requires Wired(vs) && reflector.Valid() && plugboard.Paired()
    ensures SameRotors(vs, r.0)
  {
    var c1 := Plugboards.Passing(plugboard, character);
    var stepped := StepRotorsOf(vs);
    if stepped.1.Err? then (stepped.0, Err(stepped.1.error))
    else
      var trip := RoundTrip(stepped.0, reflector, c1);
      if trip.1.Err? then trip
      else (trip.0, Ok(Plugboards.Passing(plugboard, trip.1.value)))
  }

  /** Every rotor takes the position-0 branch of `exit_conversion`, as every
      rotor built through `Cr_rotor` does. */
  predicate AtPositionZero(vs: seq<RotorState>) {
    forall j :: 0 <= j < |vs| ==> vs[j].position == 0
  }

  /** On letter windows with every rotor at position 0, the return pass from
      rotor `j` takes a letter to a letter and turns each window from `j` on
      by one place; nothing else about the rotors changes. */
  lemma {:induction false} BackwardEffect(vs: seq<RotorState>, j: nat, character: string)
    requires Wired(vs) && LetterWindows(vs) && AtPositionZero(vs) && j <= |vs|
    requires IsLetterString(character)
    ensures BackwardOf(vs, j, character).1.Ok? && IsLetterString(BackwardOf(vs, j, character).1.value)
    ensures |BackwardOf(vs, j, character).0| == |vs|
    ensures forall m :: 0 <= m < |vs| ==>
              BackwardOf(vs, j, character).0[m] == if m < j then vs[m] else vs[m].(window := Turned(vs[m].window, 1))
    decreases |vs| - j
  {
    if j < |vs| {
      var (s, out) := ExitOf(vs[j], character);
      assert out.Ok? && IsLetter(out.value);
      assert s == vs[j].(window := Turned(vs[j].window, 1));
      var vs' := vs[j := s];
      assert Wired(vs') && LetterWindows(vs') && AtPositionZero(vs');
      BackwardEffect(vs', j + 1, [out.value]);
    }
  }

  /** Between the plugboard passes, on letter windows at position 0 and with a
      valid reflector: a letter comes back as a letter and every window turns
      by one place. */
  lemma RoundTripEffect(vs: seq<RotorState>, reflector: Reflectors.Reflector, character: string)
    requires Wired(vs) && LetterWindows(vs) && AtPositionZero(vs) && reflector.Valid()
    requires IsLetterString(character)
    ensures RoundTrip(vs, reflector, character).1.Ok?
    ensures IsLetterString(RoundTrip(vs, reflector, character).1.value)
    ensures |RoundTrip(vs, reflector, character).0| == |vs|
    ensures forall j :: 0 <= j < |vs| ==>
              RoundTrip(vs, reflector, character).0[j] == vs[j].(window := Turned(vs[j].window, 1))
  {
    var c2 := ForwardOf(vs, |vs|, character).value;
    var c3 := Reflectors.Reflect(reflector, c2).value;
    BackwardEffect(vs, 0, [c3]);
  }

  /** One key press on letter windows with every rotor at position 0, a valid
      reflector and a board of letter pairs: a letter comes out, and rotor `j`
      has turned `Steps(vs, j)` places in `step_rotors` and one more on the
      return pass; models, wirings, positions and flags are as before. */
  lemma EncryptEffect(vs: seq<RotorState>, reflector: Reflectors.Reflector,
                      plugboard: Plugboards.Plugboard, character: string)
    requires |vs| > 0 && Wired(vs) && LetterWindows(vs) && AtPositionZero(vs)
    requires reflector.Valid() && plugboard.Valid() && Plugboards.LetterPairs(plugboard)
    requires IsLetterString(character)
    ensures EncryptOf(vs, reflector, plugboard, character).1.Ok?
    ensures IsLetterString(EncryptOf(vs, reflector, plugboard, character).1.value)
    ensures |EncryptOf(vs, reflector, plugboard, character).0| == |vs|
    ensures forall j :: 0 <= j < |vs| ==>
              EncryptOf(vs, reflector, plugboard, character).0[j]
                == vs[j].(window := Turned(vs[j].window, Steps(vs, j) + 1))
  {
    Plugboards.PassingLetter(plugboard, character);
    var c1 := Plugboards.Passing(plugboard, character);
    SteppedStates(vs);
    var stepped := StepRotorsOf(vs).0;
    RoundTripEffect(stepped, reflector, c1);
    var trip := RoundTrip(stepped, reflector, c1);
    Plugboards.PassingLetter(plugboard, trip.1.value);
    EncryptUnfold(vs, reflector, plugboard, character);
    TurnedAgain(vs, stepped, trip.0);
  }

  /** `step_rotors` on letter windows at position 0 keeps them so. */
  lemma SteppedStates(vs: seq<RotorState>)
    requires |vs| > 0 && Wired(vs) && LetterWindows(vs) && AtPositionZero(vs)
    ensures StepRotorsOf(vs).1 == Ok(())
    ensures |StepRotorsOf(vs).0| == |vs|
    ensures forall j :: 0 <= j < |vs| ==>
              StepRotorsOf(vs).0[j] == vs[j].(window := Turned(vs[j].window, Steps(vs, j)))
    ensures Wired(StepRotorsOf(vs).0) && LetterWindows(StepRotorsOf(vs).0) && AtPositionZero(StepRotorsOf(vs).0)
  {
    StepRotorsEffect(vs);
    var stepped := StepRotorsOf(vs).0;
    forall j | 0 <= j < |vs|
      ensures IsWiring(stepped[j].wiring) && IsLetterString(stepped[j].window) && stepped[j].position == 0
    {
      assert stepped[j] == vs[j].(window := Turned(vs[j].window, Steps(vs, j)));
    }
  }

  /** `Encryption` when `step_rotors` and the passes between the plugboard
      succeed: the states of the return pass and the second plugboard pass
      of its output. */
  lemma EncryptUnfold(vs: seq<RotorState>, reflector: Reflectors.Reflector,
                      plugboard: Plugboards.Plugboard, character: string)
    requires Wired(vs) && reflector.Valid() && plugboard.Paired()
    requires StepRotorsOf(vs).1.Ok?
    requires RoundTrip(StepRotorsOf(vs).0, reflector, Plugboards.Passing(plugboard, character)).1.Ok?
    ensures EncryptOf(vs, reflector, plugboard, character)
              == (RoundTrip(StepRotorsOf(vs).0, reflector, Plugboards.Passing(plugboard, character)).0,
                  Ok(Plugboards.Passing(plugboard, RoundTrip(StepRotorsOf(vs).0, reflector, Plugboards.Passing(plugboard, character)).1.value)))
  {
    var c1 := Plugboards.Passing(plugboard, character);
    var stepped := StepRotorsOf(vs);
    assert Wired(stepped.0);
    var trip := RoundTrip(stepped.0, reflector, c1);
    var out := Plugboards.Passing(plugboard, trip.1.value);
    assert EncryptOf(vs, reflector, plugboard, character) == (trip.0, Ok(out));
  }

  /** Rotors turned by `step_rotors` and then one place more. */
  lemma TurnedAgain(vs: seq<RotorState>, stepped: seq<RotorState>, after: seq<RotorState>)
    requires LetterWindows(vs) && LetterWindows(stepped) && |stepped| == |vs| && |after| == |vs|
    requires forall j :: 0 <= j < |vs| ==> stepped[j] == vs[j].(window := Turned(vs[j].window, Steps(vs, j)))
    requires forall j :: 0 <= j < |vs| ==> after[j] == stepped[j].(window := Turned(stepped[j].window, 1))
    ensures forall j :: 0 <= j < |vs| ==> after[j] == vs[j].(window := Turned(vs[j].window, Steps(vs, j) + 1))
  {
    forall j | 0 <= j < |vs|
      ensures after[j] == vs[j].(window := Turned(vs[j].window, Steps(vs, j) + 1))
    {
      TurnedTwice(vs[j].window, Steps(vs, j), 1);
    }
  }

  /** No flag set, every rotor at position 0: a key press turns the last
      rotor two places and every other rotor one, and the flags stay clear. */
  lemma FreshMachineEffect(vs: seq<RotorState>, reflector: Reflectors.Reflector,
                           plugboard: Plugboards.Plugboard, character: string)
    requires |vs| > 0 && Wired(vs) && LetterWindows(vs) && AtPositionZero(vs)
    requires forall j :: 0 <= j < |vs| ==> !vs[j].pass
    requires reflector.Valid() && plugboard.Valid() && Plugboards.LetterPairs(plugboard)
    requires IsLetterString(character)
    ensures EncryptOf(vs, reflector, plugboard, character).1.Ok?
    ensures |EncryptOf(vs, reflector, plugboard, character).0| == |vs|
    ensures forall j :: 0 <= j < |vs| ==>
              EncryptOf(vs, reflector, plugboard, character).0[j]
                == vs[j].(window := Turned(vs[j].window, if j == |vs| - 1 then 2 else 1))
    ensures forall j :: 0 <= j < |vs| ==> !EncryptOf(vs, reflector, plugboard, character).0[j].pass
  {
    NoFlagSteps(vs);
    EncryptEffect(vs, reflector, plugboard, character);
  }

  /** With no flag set only the last rotor steps in `step_rotors`. */
  lemma NoFlagSteps(vs: seq<RotorState>)
    requires forall j :: 0 <= j < |vs| ==> !vs[j].pass
    ensures forall j :: 0 <= j < |vs| ==> Steps(vs, j) + 1 == if j == |vs| - 1 then 2 else 1
  {
  }

  /** Rotors I, II and III, left to right, at position 0 with no flag set,
      showing the windows `a`, `b` and `c`. */
  function Example(a: string, b: string, c: string): (vs: seq<RotorState>)
    ensures |vs| == 3 && Wired(vs)
  {
    CheckI();
    CheckII();
    CheckIII();
    [RotorState("I", WiringI, 0, a, false),
     RotorState("II", WiringII, 0, b, false),
     RotorState("III", WiringIII, 0, c, false)]
  }

  /** On rotors I, II, III at A, A, A, reflector B and an empty board, the
      key A lights G, and the windows read B, B, C afterwards. */
  lemma FirstKeyExample()
    ensures EncryptOf(Example("A", "A", "A"), Reflectors.Reflector(Reflectors.B), Plugboards.Plugboard([]), "A")
              == (Example("B", "B", "C"), Ok("G"))
  {
    var board := Plugboards.Plugboard([]);
    ExampleStep();
    ExampleForward();
    ExampleBackward();
    assert RoundTrip(Example("A", "A", "B"), Reflectors.Reflector(Reflectors.B), "A") == (Example("B", "B", "C"), Ok("G"));
    NormalizeLetter('A');
    NormalizeLetter('G');
    EncryptUnfold(Example("A", "A", "A"), Reflectors.Reflector(Reflectors.B), board, "A");
  }

  lemma ExampleStep()
    ensures StepRotorsOf(Example("A", "A", "A")) == (Example("A", "A", "B"), Ok(()))
  {
    var vs := Example("A", "A", "A");
    assert LetterWindows(vs);
    StepRotorsEffect(vs);
    TurnedZero("A");
    assert Turned("A", 1) == "B";
    var r := StepRotorsOf(vs).0;
    assert r[0] == vs[0].(window := Turned("A", 0));
    assert r[1] == vs[1].(window := Turned("A", 0));
    assert r[2] == vs[2].(window := Turned("A", 1));
    assert r == Example("A", "A", "B");
  }

  lemma ExampleForward()
    ensures ForwardOf(Example("A", "A", "B"), 3, "A") == Ok("N")
    ensures Reflectors.Reflect(Reflectors.Reflector(Reflectors.B), "N") == Ok('K')
  {
    var vs := Example("A", "A", "B");
    ExampleContacts();
    assert ForwardOf(vs, 1, "K") == Ok("N") by {
      EntryLetter(vs[0], 'K', 10, 'N');
      ForwardUnfold(vs, 1, "K");
    }
    assert ForwardOf(vs, 2, "D") == Ok("N") by {
      EntryLetter(vs[1], 'D', 3, 'K');
      ForwardUnfold(vs, 2, "D");
    }
    assert ForwardOf(vs, 3, "A") == Ok("N") by {
      EntryLetter(vs[2], 'A', 1, 'D');
      ForwardUnfold(vs, 3, "A");
    }
    Reflectors.ReflectLetter(Reflectors.Reflector(Reflectors.B), 'N');
  }

  /** The window turns the example makes. */
  lemma ExampleTurns()
    ensures Turned("A", 0) == "A" && Turned("A", 1) == "B" && Turned("B", 1) == "C"
  {
    TurnedZero("A");
  }

  /** The table entries the example reads. */
  lemma ExampleContacts()
    ensures WiringIII[1] == 'D' && WiringII[3] == 'K' && WiringI[10] == 'N' && Reflectors.B[13] == 'K'
    ensures WiringII[13] == 'T' && WiringIII[18] == 'G'
  {
  }

  /** Entry conversion of the letter `c` to `d`, read off the wiring. */
  lemma EntryLetter(s: RotorState, c: char, k: nat, d: char)
    requires IsWiring(s.wiring) && IsLetterString(s.window) && IsLetter(c)
    requires Ord(c) + Ord(s.window[0]) == k < 26 && s.wiring[k] == d
    ensures EntryOf(s, [c]) == Ok(d)
  {
  }

  lemma ExampleBackward()
    ensures BackwardOf(Example("A", "A", "B"), 0, "K") == (Example("B", "B", "C"), Ok("G"))
  {
    ExampleBackwardAt(0);
    ExampleBackwardAt(1);
    ExampleBackwardAt(2);
    var done := Example("B", "B", "C");
    assert BackwardOf(done, 3, "G") == (done, Ok("G"));
  }

  /** The return pass of the example, one rotor at a time: rotor `j` has
      already turned when `j` is behind it. */
  lemma ExampleBackwardAt(j: nat)
    requires j < 3
    ensures j == 0 ==> BackwardOf(Example("A", "A", "B"), 0, "K") == BackwardOf(Example("B", "A", "B"), 1, "N")
    ensures j == 1 ==> BackwardOf(Example("B", "A", "B"), 1, "N") == BackwardOf(Example("B", "B", "B"), 2, "T")
    ensures j == 2 ==> BackwardOf(Example("B", "B", "B"), 2, "T") == BackwardOf(Example("B", "B", "C"), 3, "G")
  {
    ExampleContacts();
    ExampleTurns();
    if j == 0 {
      var vs := Example("A", "A", "B");
      assert Ord('K') == 10 && Ord('A') == 0;
      ExitLetter(vs[0], 'K', 10, 'N');
      BackwardUnfold(vs, 0, "K");
      assert vs[0 := vs[0].(window := "B")] == Example("B", "A", "B");
    } else if j == 1 {
      var vs := Example("B", "A", "B");
      assert Ord('N') == 13 && Ord('A') == 0;
      ExitLetter(vs[1], 'N', 13, 'T');
      BackwardUnfold(vs, 1, "N");
      assert vs[1 := vs[1].(window := "B")] == Example("B", "B", "B");
    } else {
      var vs := Example("B", "B", "B");
      assert Ord('T') == 19 && Ord('B') == 1;
      ExitLetter(vs[2], 'T', 18, 'G');
      BackwardUnfold(vs, 2, "T");
      assert vs[2 := vs[2].(window := "C")] == Example("B", "B", "C");
    }
  }

  /** Exit conversion of the letter `c` to `d` at position 0, read off the
      wiring; the rotor turns one place. */
  lemma ExitLetter(s: RotorState, c: char, k: nat, d: char)
    requires IsWiring(s.wiring) && IsLetterString(s.window) && IsLetter(c) && s.position == 0
    requires (Ord(c) - Ord(s.window[0])) % 26 == k && s.wiring[k] == d
    ensures ExitOf(s, [c]) == (s.(window := Turned(s.window, 1)), Ok(d))
  {
  }

  // ---------------------------------------------------------------------
  // The machine object

  /** The states of a list of rotor objects, in order. */
  function ViewsOf(rs: seq<Rotor>): (vs: seq<RotorState>)
    reads rs
    ensures |vs| == |rs|
  {
    if |rs| == 0 then [] else ViewsOf(rs[..|rs| - 1]) + [rs[|rs| - 1].View()]
  }

  /** State `j` of the list is the state of rotor object `j`. */
  lemma {:induction false} ViewsOfAt(rs: seq<Rotor>, j: nat)
    requires j < |rs|
    ensures ViewsOf(rs)[j] == rs[j].View()
    decreases |rs|
  {
    if j < |rs| - 1 {
      ViewsOfAt(rs[..|rs| - 1], j);
    }
  }

  /** `EnigmaCircuit`: the rotor list, reflector and plugboard are fixed at
      construction; only the rotors' windows and flags change. */
  class EnigmaCircuit {
    const Rotors: seq<Rotor>
    const Reflector: Reflectors.Reflector
    const Plugboard: Plugboards.Plugboard

    /** Every rotor is valid, as every rotor built by `Rotor(...)` is. */
    predicate RotorsValid() {
      forall j :: 0 <= j < |Rotors| ==> Rotors[j].Valid()
    }

    /** The rotors' states, leftmost first. */
    function Views(): (vs: seq<RotorState>)
      reads Rotors
      ensures |vs| == |Rotors|
      ensures RotorsValid() ==> Wired(vs)
    {
      assert forall j :: 0 <= j < |Rotors| ==> ViewsOf(Rotors)[j] == Rotors[j].View() by {
        forall j | 0 <= j < |Rotors| ensures ViewsOf(Rotors)[j] == Rotors[j].View() {
          ViewsOfAt(Rotors, j);
        }
      }
      ViewsOf(Rotors)
    }

    constructor (rotors: seq<Rotor>, reflector: Reflectors.Reflector, plugboard: Plugboards.Plugboard)
      ensures Rotors == rotors && Reflector == reflector && Plugboard == plugboard
    {
      Rotors := rotors;
      Reflector := reflector;
      Plugboard := plugboard;
    }

    /** `self.Rotors[k].step()`, seen from the circuit: only state `k` changes. */
    method StepAt(k: nat) returns (ok: bool)
      requires NoDuplicates(Rotors) && k < |Rotors|
      modifies Rotors[k]
      ensures ok <==> Advance(old(Views())[k].window).Some?
      ensures ok ==> Views() == old(Views())[k := old(Views())[k].(window := Advance(old(Views())[k].window).value)]
      ensures !ok ==> Views() == old(Views())
    {
      ghost var before := Views();
      forall m | 0 <= m < |Rotors| ensures before[m] == Rotors[m].View() {
        ViewsOfAt(Rotors, m);
      }
      ok := Rotors[k].Step();
      forall m | 0 <= m < |Rotors|
        ensures Views()[m] == before[k := Rotors[k].View()][m]
      {
        ViewsOfAt(Rotors, m);
        if m < k {
          assert Rotors[m] != Rotors[k];
        } else if m > k {
          assert Rotors[k] != Rotors[m];
        }
      }
    }

    /** `self.Rotors[k].exit_conversion(character, ...)`, seen from the
        circuit: only state `k` changes. */
    method ExitAt(k: nat, character: string) returns (r: Result<char>)
      requires NoDuplicates(Rotors) && RotorsValid() && k < |Rotors|
      modifies Rotors[k]
      ensures r == ExitOf(old(Views())[k], character).1
      ensures Views() == old(Views())[k := ExitOf(old(Views())[k], character).0]
    {
      ghost var before := Views();
      forall m | 0 <= m < |Rotors| ensures before[m] == Rotors[m].View() {
        ViewsOfAt(Rotors, m);
      }
      r := Rotors[k].ExitConversion(character, Rotors[k].Window);
      forall m | 0 <= m < |Rotors|
        ensures Views()[m] == before[k := Rotors[k].View()][m]
      {
        ViewsOfAt(Rotors, m);
        if m < k {
          assert Rotors[m] != Rotors[k];
        } else if m > k {
          assert Rotors[k] != Rotors[m];
        }
      }
    }

    /** One round of the loop of `step_rotors`, at rotor `i`. */
    method CascadeRound(i: nat) returns (ok: bool)
      requires NoDuplicates(Rotors) && 0 < i < |Rotors|
      modifies Rotors[i]
      ensures ok <==> !old(Views())[i - 1].pass || Advance(old(Views())[i].window).Some?
      ensures ok ==> Views() == if old(Views())[i - 1].pass
                                then old(Views())[i := old(Views())[i].(window := Advance(old(Views())[i].window).value)]
                                else old(Views())
      ensures ok ==> Cascade(old(Views()), i) == Cascade(Views(), i - 1)
      ensures !ok ==> Views() == old(Views()) && Cascade(old(Views()), i) == (Views(), Err(SubstringNotFound))
    {
      ghost var cur := Views();
      CascadeStep(cur, i);
      ViewsOfAt(Rotors, i - 1);
      ok := true;
      if Rotors[i - 1].CheckPassing() {
        ok := StepAt(i);
      }
    }

    /** `step_rotors`: the states and outcome are those of `StepRotorsOf`. */
    method StepRotors() returns (r: Result<()>)
      requires NoDuplicates(Rotors)
      modifies Rotors
      ensures Views() == StepRotorsOf(old(Views())).0
      ensures r == StepRotorsOf(old(Views())).1
    {
      if |Rotors| == 0 {
        return Err(EmptyRotorList);
      }
      var ok := RunCascade();
      if !ok {
        return Err(SubstringNotFound);
      }
      ok := StepLastRotor();
      if !ok {
        return Err(SubstringNotFound);
      }
      return Ok(());
    }

    /** The loop of `step_rotors`, from the last rotor down to the second. */
    method RunCascade() returns (ok: bool)
      requires NoDuplicates(Rotors) && |Rotors| > 0
      modifies Rotors
      ensures Cascade(old(Views()), |Rotors| - 1) == (Views(), if ok then Ok(()) else Err(SubstringNotFound))
    {
      ghost var target := Cascade(Views(), |Rotors| - 1);
      var i := |Rotors| - 1;
      while i > 0
        invariant 0 <= i < |Rotors|
        invariant Cascade(Views(), i) == target
      {
        ok := CascadeRound(i);
        if !ok {
          return;
        }
        i := i - 1;
      }
      return true;
    }

    /** `self.Rotors[-1].step()`, seen from the circuit. */
    method StepLastRotor() returns (ok: bool)
      requires NoDuplicates(Rotors) && |Rotors| > 0
      modifies Rotors[|Rotors| - 1]
      ensures StepLast(old(Views())) == (Views(), if ok then Ok(()) else Err(SubstringNotFound))
    {
      ok := StepAt(|Rotors| - 1);
    }

    /** The first loop of `Encryption`: rotors right to left, each applying
        its entry conversion; nothing changes. */
    method ForwardPass(character: string) returns (r: Result<string>)
      requires RotorsValid()
      ensures r == ForwardOf(Views(), |Rotors|, character)
    {
      ghost var vs := Views();
      assert Wired(vs);
      ghost var target := ForwardOf(vs, |vs|, character);
      var c := character;
      var i := |Rotors|;
      while i > 0
        invariant 0 <= i <= |Rotors| == |vs|
        invariant ForwardOf(vs, i, c) == target
      {
        ViewsOfAt(Rotors, i - 1);
        var d := Rotors[i - 1].EntryConversion(c, Rotors[i - 1].Window);
        if d.Err? {
          return Err(d.error);
        }
        ForwardUnfold(vs, i, c);
        c := [d.value];
        i := i - 1;
      }
      return Ok(c);
    }

    /** The second loop of `Encryption`: rotors left to right, each applying
        its exit conversion and updating itself; a failure stops the loop. */
    method BackwardPass(character: string) returns (r: Result<string>)
      requires NoDuplicates(Rotors) && RotorsValid()
      modifies Rotors
      ensures Views() == BackwardOf(old(Views()), 0, character).0
      ensures r == BackwardOf(old(Views()), 0, character).1
    {
      ghost var target := BackwardOf(Views(), 0, character);
      ghost var cur := Views();
      var c := character;
      var j := 0;
      while j < |Rotors|
        invariant 0 <= j <= |Rotors| == |cur|
        invariant Views() == cur && Wired(cur)
        invariant BackwardOf(cur, j, c) == target
      {
        BackwardUnfold(cur, j, c);
        var e := ExitAt(j, c);
        cur := cur[j := ExitOf(cur[j], c).0];
        if e.Err? {
          return Err(e.error);
        }
        c := [e.value];
        j := j + 1;
      }
      return Ok(c);
    }

    /** `Encryption`: the states and output are those of `EncryptOf`. */
    method Encryption(character: string) returns (r: Result<string>)
      requires NoDuplicates(Rotors) && RotorsValid() && Reflector.Valid() && Plugboard.Paired()
      modifies Rotors
      ensures Views() == EncryptOf(old(Views()), Reflector, Plugboard, character).0
      ensures r == EncryptOf(old(Views()), Reflector, Plugboard, character).1
    {
      var c := Plugboards.Passing(Plugboard, character);
      var stepped := StepRotors();
      if stepped.Err? {
        return Err(stepped.error);
      }
      var forward := ForwardPass(c);
      if forward.Err? {
        return Err(forward.error);
      }
      // The forward pass through at least one rotor puts out a letter, which
      // the reflector always finds: `reflect` cannot raise here.
      var reflected := Reflectors.Reflect(Reflector, forward.value);
      assert reflected.Ok?;
      var backward := BackwardPass([reflected.value]);
      if backward.Err? {
        return Err(backward.error);
      }
      return Ok(Plugboards.Passing(Plugboard, backward.value));
    }
  }
}
