/** A rotor: a fixed wiring chosen by model name, a window letter that turns as
    the machine is used, and a pass flag for its notch. */
module Rotors {
  import opened Outcomes
  import opened Seqs
  import opened Strings

  const WiringI: string := "EKMFLGDQVZNTOWYHXUSPAIBRCJ"
  const WiringII: string := "AJDKSIRUXBLHWTMCQGZNPYFVOE"
  const WiringIII: string := "BDFHJLCPRTXVZNYEIWGAKMUSQO"
  const WiringIV: string := "ESOVPZJAYQUIRHXLNFTGKDCMWB"
  const WiringV: string := "VZBRGITYUPSDNHLXAWMJQOFECK"
  const WiringVI: string := "JPGVOUMFYQBENHZRDKASXLICTW"
  const WiringVII: string := "NZJHGRCXMYSWBOUFAIVLPEKQDT"
  const WiringVIII: string := "FKQHTLXOCBJSPDZRAMEWNIUYGV"
  const WiringBeta: string := "LEYJVCNIXWPBQMDRTAKZGFUHOS"
  const WiringGamma: string := "FSOKANUERHMBTIYCWLQPZXVGJD"

  /** `Rotor.MODELS`: the wiring of each supported model. */
  const Models: map<string, string> := map[
    "ENTRY" := Alphabet,
    "I" := WiringI,
    "II" := WiringII,
    "III" := WiringIII,
    "IV" := WiringIV,
    "V" := WiringV,
    "VI" := WiringVI,
    "VII" := WiringVII,
    "VIII" := WiringVIII,
    "BETA" := WiringBeta,
    "GAMMA" := WiringGamma
  ]

  /** `Rotor.WINDOWS`: the window letters at which a model sets its pass flag.
      ENTRY, BETA and GAMMA have none. */
  const Windows: map<string, seq<string>> := map[
    "I" := ["Q"],
    "II" := ["E"],
    "III" := ["V"],
    "IV" := ["J"],
    "V" := ["H"],
    "VI" := ["H", "U"],
    "VII" := ["H", "U"],
    "VIII" := ["H", "U"]
  ]

  /** `t` can serve as a wiring: 26 positions, each holding a letter. */
  predicate IsWiring(t: string) {
    |t| == 26 && forall k :: 0 <= k < 26 ==> IsLetter(t[k])
  }

  /** `t` is a rearrangement of the 26 letters: each position holds a letter,
      no letter twice, and every letter somewhere. */
  ghost predicate IsPermutation(t: string) {
    && IsWiring(t)
    && NoDuplicates(t)
    && (forall c :: IsLetter(c) ==> exists k :: 0 <= k < 26 && t[k] == c)
  }

  /** Position k of `t` and of its claimed inverse `inv` undo each other. */
  predicate InvertsAt(t: string, inv: string, k: int)
    requires |t| == 26 && |inv| == 26 && 0 <= k < 26
  {
    && IsLetter(t[k]) && IsLetter(inv[k])
    && inv[Ord(t[k])] == Alphabet[k]
    && t[Ord(inv[k])] == Alphabet[k]
  }

  /** A table with an inverse is a permutation. */
  lemma PermutationByInverse(t: string, inv: string)
    requires |t| == 26 && |inv| == 26
    requires forall k :: 0 <= k < 26 ==> InvertsAt(t, inv, k)
    ensures IsPermutation(t)
  {
    forall k | 0 <= k < 26 ensures IsLetter(t[k]) {
      assert InvertsAt(t, inv, k);
    }
    forall i, j | 0 <= i < j < 26 ensures t[i] != t[j] {
      assert InvertsAt(t, inv, i) && InvertsAt(t, inv, j);
      assert Alphabet[i] != Alphabet[j] by {
        AlphabetSpelled();
      }
    }
    forall c | IsLetter(c) ensures exists k :: 0 <= k < 26 && t[k] == c {
      var k := Ord(c);
      assert InvertsAt(t, inv, k);
      assert t[Ord(inv[k])] == c;
    }
  }

  /** A table with an inverse, checked position by position.  Each caller
      asserts the 26 checks one at a time, which lets the solver evaluate
      them on the literal tables. */
  lemma PermutationByListedInverse(t: string, inv: string)
    requires |t| == 26 && |inv| == 26
    requires InvertsAt(t, inv, 0) && InvertsAt(t, inv, 1) && InvertsAt(t, inv, 2) && InvertsAt(t, inv, 3)
          && InvertsAt(t, inv, 4) && InvertsAt(t, inv, 5) && InvertsAt(t, inv, 6) && InvertsAt(t, inv, 7)
          && InvertsAt(t, inv, 8) && InvertsAt(t, inv, 9) && InvertsAt(t, inv, 10) && InvertsAt(t, inv, 11)
          && InvertsAt(t, inv, 12) && InvertsAt(t, inv, 13) && InvertsAt(t, inv, 14) && InvertsAt(t, inv, 15)
          && InvertsAt(t, inv, 16) && InvertsAt(t, inv, 17) && InvertsAt(t, inv, 18) && InvertsAt(t, inv, 19)
          && InvertsAt(t, inv, 20) && InvertsAt(t, inv, 21) && InvertsAt(t, inv, 22) && InvertsAt(t, inv, 23)
          && InvertsAt(t, inv, 24) && InvertsAt(t, inv, 25)
    ensures IsPermutation(t)
  {
    forall k | 0 <= k < 26 ensures InvertsAt(t, inv, k) {
      Below26(k);
    }
    PermutationByInverse(t, inv);
  }

  // The inverse of each wiring, written out for the permutation proofs.
  ghost const InverseI: string := "UWYGADFPVZBECKMTHXSLRINQOJ"
  ghost const InverseII: string := "AJPCZWRLFBDKOTYUQGENHXMIVS"
  ghost const InverseIII: string := "TAGBPCSDQEUFVNZHYIXJWLRKOM"
  ghost const InverseIV: string := "HZWVARTNLGUPXQCEJMBSKDYOIF"
  ghost const InverseV: string := "QCYLXWENFTZOSMVJUDKGIARPHB"
  ghost const InverseVI: string := "SKXQLHCNWARVGMEBJPTYFDZUIO"
  ghost const InverseVII: string := "QMGYVPEDRCWTIANUXFKZOSLHJB"
  ghost const InverseVIII: string := "QJINSAYDVKBFRUHMCPLEWZTGXO"
  ghost const InverseBeta: string := "RLFOBVUXHDSANGYKMPZQWEJICT"
  ghost const InverseGamma: string := "ELPZHAXJNYDRKFCTSIBMGWQVOU"

  lemma CheckI()
    ensures IsPermutation(WiringI)
  {
    var t, inv := WiringI, InverseI;
    assert InvertsAt(t, inv, 0); assert InvertsAt(t, inv, 1); assert InvertsAt(t, inv, 2); assert InvertsAt(t, inv, 3);
    assert InvertsAt(t, inv, 4); assert InvertsAt(t, inv, 5); assert InvertsAt(t, inv, 6); assert InvertsAt(t, inv, 7);
    assert InvertsAt(t, inv, 8); assert InvertsAt(t, inv, 9); assert InvertsAt(t, inv, 10); assert InvertsAt(t, inv, 11);
    assert InvertsAt(t, inv, 12); assert InvertsAt(t, inv, 13); assert InvertsAt(t, inv, 14); assert InvertsAt(t, inv, 15);
    assert InvertsAt(t, inv, 16); assert InvertsAt(t, inv, 17); assert InvertsAt(t, inv, 18); assert InvertsAt(t, inv, 19);
    assert InvertsAt(t, inv, 20); assert InvertsAt(t, inv, 21); assert InvertsAt(t, inv, 22); assert InvertsAt(t, inv, 23);
    assert InvertsAt(t, inv, 24); assert InvertsAt(t, inv, 25);
    PermutationByListedInverse(t, inv);
  }

  lemma CheckII()
    ensures IsPermutation(WiringII)
  {
    var t, inv := WiringII, InverseII;
    assert InvertsAt(t, inv, 0); assert InvertsAt(t, inv, 1); assert InvertsAt(t, inv, 2); assert InvertsAt(t, inv, 3);
    assert InvertsAt(t, inv, 4); assert InvertsAt(t, inv, 5); assert InvertsAt(t, inv, 6); assert InvertsAt(t, inv, 7);
    assert InvertsAt(t, inv, 8); assert InvertsAt(t, inv, 9); assert InvertsAt(t, inv, 10); assert InvertsAt(t, inv, 11);
    assert InvertsAt(t, inv, 12); assert InvertsAt(t, inv, 13); assert InvertsAt(t, inv, 14); assert InvertsAt(t, inv, 15);
    assert InvertsAt(t, inv, 16); assert InvertsAt(t, inv, 17); assert InvertsAt(t, inv, 18); assert InvertsAt(t, inv, 19);
    assert InvertsAt(t, inv, 20); assert InvertsAt(t, inv, 21); assert InvertsAt(t, inv, 22); assert InvertsAt(t, inv, 23);
    assert InvertsAt(t, inv, 24); assert InvertsAt(t, inv, 25);
    PermutationByListedInverse(t, inv);
  }

  lemma CheckIII()
    ensures IsPermutation(WiringIII)
  {
    var t, inv := WiringIII, InverseIII;
    assert InvertsAt(t, inv, 0); assert InvertsAt(t, inv, 1); assert InvertsAt(t, inv, 2); assert InvertsAt(t, inv, 3);
    assert InvertsAt(t, inv, 4); assert InvertsAt(t, inv, 5); assert InvertsAt(t, inv, 6); assert InvertsAt(t, inv, 7);
    assert InvertsAt(t, inv, 8); assert InvertsAt(t, inv, 9); assert InvertsAt(t, inv, 10); assert InvertsAt(t, inv, 11);
    assert InvertsAt(t, inv, 12); assert InvertsAt(t, inv, 13); assert InvertsAt(t, inv, 14); assert InvertsAt(t, inv, 15);
    assert InvertsAt(t, inv, 16); assert InvertsAt(t, inv, 17); assert InvertsAt(t, inv, 18); assert InvertsAt(t, inv, 19);
    assert InvertsAt(t, inv, 20); assert InvertsAt(t, inv, 21); assert InvertsAt(t, inv, 22); assert InvertsAt(t, inv, 23);
    assert InvertsAt(t, inv, 24); assert InvertsAt(t, inv, 25);
    PermutationByListedInverse(t, inv);
  }

  lemma CheckIV()
    ensures IsPermutation(WiringIV)
  {
    var t, inv := WiringIV, InverseIV;
    assert InvertsAt(t, inv, 0); assert InvertsAt(t, inv, 1); assert InvertsAt(t, inv, 2); assert InvertsAt(t, inv, 3);
    assert InvertsAt(t, inv, 4); assert InvertsAt(t, inv, 5); assert InvertsAt(t, inv, 6); assert InvertsAt(t, inv, 7);
    assert InvertsAt(t, inv, 8); assert InvertsAt(t, inv, 9); assert InvertsAt(t, inv, 10); assert InvertsAt(t, inv, 11);
    assert InvertsAt(t, inv, 12); assert InvertsAt(t, inv, 13); assert InvertsAt(t, inv, 14); assert InvertsAt(t, inv, 15);
    assert InvertsAt(t, inv, 16); assert InvertsAt(t, inv, 17); assert InvertsAt(t, inv, 18); assert InvertsAt(t, inv, 19);
    assert InvertsAt(t, inv, 20); assert InvertsAt(t, inv, 21); assert InvertsAt(t, inv, 22); assert InvertsAt(t, inv, 23);
    assert InvertsAt(t, inv, 24); assert InvertsAt(t, inv, 25);
    PermutationByListedInverse(t, inv);
  }

  lemma CheckV()
    ensures IsPermutation(WiringV)
  {
    var t, inv := WiringV, InverseV;
    assert InvertsAt(t, inv, 0); assert InvertsAt(t, inv, 1); assert InvertsAt(t, inv, 2); assert InvertsAt(t, inv, 3);
    assert InvertsAt(t, inv, 4); assert InvertsAt(t, inv, 5); assert InvertsAt(t, inv, 6); assert InvertsAt(t, inv, 7);
    assert InvertsAt(t, inv, 8); assert InvertsAt(t, inv, 9); assert InvertsAt(t, inv, 10); assert InvertsAt(t, inv, 11);
    assert InvertsAt(t, inv, 12); assert InvertsAt(t, inv, 13); assert InvertsAt(t, inv, 14); assert InvertsAt(t, inv, 15);
    assert InvertsAt(t, inv, 16); assert InvertsAt(t, inv, 17); assert InvertsAt(t, inv, 18); assert InvertsAt(t, inv, 19);
    assert InvertsAt(t, inv, 20); assert InvertsAt(t, inv, 21); assert InvertsAt(t, inv, 22); assert InvertsAt(t, inv, 23);
    assert InvertsAt(t, inv, 24); assert InvertsAt(t, inv, 25);
    PermutationByListedInverse(t, inv);
  }

  lemma CheckVI()
    ensures IsPermutation(WiringVI)
  {
    var t, inv := WiringVI, InverseVI;
    assert InvertsAt(t, inv, 0); assert InvertsAt(t, inv, 1); assert InvertsAt(t, inv, 2); assert InvertsAt(t, inv, 3);
    assert InvertsAt(t, inv, 4); assert InvertsAt(t, inv, 5); assert InvertsAt(t, inv, 6); assert InvertsAt(t, inv, 7);
    assert InvertsAt(t, inv, 8); assert InvertsAt(t, inv, 9); assert InvertsAt(t, inv, 10); assert InvertsAt(t, inv, 11);
    assert InvertsAt(t, inv, 12); assert InvertsAt(t, inv, 13); assert InvertsAt(t, inv, 14); assert InvertsAt(t, inv, 15);
    assert InvertsAt(t, inv, 16); assert InvertsAt(t, inv, 17); assert InvertsAt(t, inv, 18); assert InvertsAt(t, inv, 19);
    assert InvertsAt(t, inv, 20); assert InvertsAt(t, inv, 21); assert InvertsAt(t, inv, 22); assert InvertsAt(t, inv, 23);
    assert InvertsAt(t, inv, 24); assert InvertsAt(t, inv, 25);
    PermutationByListedInverse(t, inv);
  }

  lemma CheckVII()
    ensures IsPermutation(WiringVII)
  {
    var t, inv := WiringVII, InverseVII;
    assert InvertsAt(t, inv, 0); assert InvertsAt(t, inv, 1); assert InvertsAt(t, inv, 2); assert InvertsAt(t, inv, 3);
    assert InvertsAt(t, inv, 4); assert InvertsAt(t, inv, 5); assert InvertsAt(t, inv, 6); assert InvertsAt(t, inv, 7);
    assert InvertsAt(t, inv, 8); assert InvertsAt(t, inv, 9); assert InvertsAt(t, inv, 10); assert InvertsAt(t, inv, 11);
    assert InvertsAt(t, inv, 12); assert InvertsAt(t, inv, 13); assert InvertsAt(t, inv, 14); assert InvertsAt(t, inv, 15);
    assert InvertsAt(t, inv, 16); assert InvertsAt(t, inv, 17); assert InvertsAt(t, inv, 18); assert InvertsAt(t, inv, 19);
    assert InvertsAt(t, inv, 20); assert InvertsAt(t, inv, 21); assert InvertsAt(t, inv, 22); assert InvertsAt(t, inv, 23);
    assert InvertsAt(t, inv, 24); assert InvertsAt(t, inv, 25);
    PermutationByListedInverse(t, inv);
  }

  lemma CheckVIII()
    ensures IsPermutation(WiringVIII)
  {
    var t, inv := WiringVIII, InverseVIII;
    assert InvertsAt(t, inv, 0); assert InvertsAt(t, inv, 1); assert InvertsAt(t, inv, 2); assert InvertsAt(t, inv, 3);
    assert InvertsAt(t, inv, 4); assert InvertsAt(t, inv, 5); assert InvertsAt(t, inv, 6); assert InvertsAt(t, inv, 7);
    assert InvertsAt(t, inv, 8); assert InvertsAt(t, inv, 9); assert InvertsAt(t, inv, 10); assert InvertsAt(t, inv, 11);
    assert InvertsAt(t, inv, 12); assert InvertsAt(t, inv, 13); assert InvertsAt(t, inv, 14); assert InvertsAt(t, inv, 15);
    assert InvertsAt(t, inv, 16); assert InvertsAt(t, inv, 17); assert InvertsAt(t, inv, 18); assert InvertsAt(t, inv, 19);
    assert InvertsAt(t, inv, 20); assert InvertsAt(t, inv, 21); assert InvertsAt(t, inv, 22); assert InvertsAt(t, inv, 23);
    assert InvertsAt(t, inv, 24); assert InvertsAt(t, inv, 25);
    PermutationByListedInverse(t, inv);
  }

  lemma CheckBeta()
    ensures IsPermutation(WiringBeta)
  {
    var t, inv := WiringBeta, InverseBeta;
    assert InvertsAt(t, inv, 0); assert InvertsAt(t, inv, 1); assert InvertsAt(t, inv, 2); assert InvertsAt(t, inv, 3);
    assert InvertsAt(t, inv, 4); assert InvertsAt(t, inv, 5); assert InvertsAt(t, inv, 6); assert InvertsAt(t, inv, 7);
    assert InvertsAt(t, inv, 8); assert InvertsAt(t, inv, 9); assert InvertsAt(t, inv, 10); assert InvertsAt(t, inv, 11);
    assert InvertsAt(t, inv, 12); assert InvertsAt(t, inv, 13); assert InvertsAt(t, inv, 14); assert InvertsAt(t, inv, 15);
    assert InvertsAt(t, inv, 16); assert InvertsAt(t, inv, 17); assert InvertsAt(t, inv, 18); assert InvertsAt(t, inv, 19);
    assert InvertsAt(t, inv, 20); assert InvertsAt(t, inv, 21); assert InvertsAt(t, inv, 22); assert InvertsAt(t, inv, 23);
    assert InvertsAt(t, inv, 24); assert InvertsAt(t, inv, 25);
    PermutationByListedInverse(t, inv);
  }

  lemma CheckGamma()
    ensures IsPermutation(WiringGamma)
  {
    var t, inv := WiringGamma, InverseGamma;
    assert InvertsAt(t, inv, 0); assert InvertsAt(t, inv, 1); assert InvertsAt(t, inv, 2); assert InvertsAt(t, inv, 3);
    assert InvertsAt(t, inv, 4); assert InvertsAt(t, inv, 5); assert InvertsAt(t, inv, 6); assert InvertsAt(t, inv, 7);
    assert InvertsAt(t, inv, 8); assert InvertsAt(t, inv, 9); assert InvertsAt(t, inv, 10); assert InvertsAt(t, inv, 11);
    assert InvertsAt(t, inv, 12); assert InvertsAt(t, inv, 13); assert InvertsAt(t, inv, 14); assert InvertsAt(t, inv, 15);
    assert InvertsAt(t, inv, 16); assert InvertsAt(t, inv, 17); assert InvertsAt(t, inv, 18); assert InvertsAt(t, inv, 19);
    assert InvertsAt(t, inv, 20); assert InvertsAt(t, inv, 21); assert InvertsAt(t, inv, 22); assert InvertsAt(t, inv, 23);
    assert InvertsAt(t, inv, 24); assert InvertsAt(t, inv, 25);
    PermutationByListedInverse(t, inv);
  }

  lemma CheckEntry()
    ensures IsPermutation(Alphabet)
  {
    AlphabetSpelled();
    forall k | 0 <= k < 26 ensures InvertsAt(Alphabet, Alphabet, k) {
    }
    PermutationByInverse(Alphabet, Alphabet);
  }

  /** Every wiring in `Rotor.MODELS` is a permutation of A..Z. */
  lemma WiringsArePermutations()
    ensures forall m :: m in Models ==> IsPermutation(Models[m])
  {
    CheckEntry();
    CheckI();
    CheckII();
    CheckIII();
    CheckIV();
    CheckV();
    CheckVI();
    CheckVII();
    CheckVIII();
    CheckBeta();
    CheckGamma();
  }

  /** The fields of a rotor object at one moment: `Model`, the wiring
      `Rotor`, `Position`, `Window` and `Pass`. */
  datatype RotorState = RotorState(model: string, wiring: string, position: int, window: string, pass: bool) {
    /** The wiring is the one stored for the model. */
    predicate WellFormed() {
      model in Models && wiring == Models[model]
    }
  }

  /** What `Rotor(model, window, position)` stores, or the error it raises for
      a model name that is not a key of `MODELS` once upper-cased and stripped. */
  function InitialState(model: string, window: string, position: int): (r: Result<RotorState>)
    ensures r.Ok? <==> Normalize(model) in Models
    ensures r.Err? ==> r.error == UnknownRotorModel
    ensures r.Ok? ==> r.value.WellFormed() && IsPermutation(r.value.wiring) && !r.value.pass
    ensures r.Ok? ==> r.value.window == Normalize(window) && r.value.position == position
    ensures r.Ok? ==> r.value.model == Normalize(model)
  {
    var name := Normalize(model);
    if name !in Models then Err(UnknownRotorModel)
    else
      WiringsArePermutations();
      Ok(RotorState(name, Models[name], position, Normalize(window), false))
  }

  /** The window `n` letters further on, wrapping from Z to A. */
  function Turned(window: string, n: int): (r: string)
    requires IsLetterString(window)
    ensures IsLetterString(r) && Ord(r[0]) == (Ord(window[0]) + n) % 26
  {
    OrdLetter(Ord(window[0]) + n);
    [Letter(Ord(window[0]) + n)]
  }

  /** `Rotor.step`: the next letter after the window, or None where looking the
      window up in the contact string raises ValueError. */
  function Advance(window: string): (r: Option<string>)
    ensures r.Some? <==> AlphabetIndex(window).Some?
    ensures r.Some? ==> IsLetterString(r.value)
    ensures IsLetterString(window) ==> r == Some(Turned(window, 1))
  {
    match AlphabetIndex(window)
    case None => None
    case Some(k) =>
      Some([Letter(k + 1)])
  }

  /** Turning a window no places leaves it as it is. */
  lemma TurnedZero(window: string)
    requires IsLetterString(window)
    ensures Turned(window, 0) == window
  {
    assert [window[0]] == window;
  }

  /** Turning a window `n` places and then `m` more is turning it `n + m`. */
  lemma TurnedTwice(window: string, n: int, m: int)
    requires IsLetterString(window)
    ensures Turned(Turned(window, n), m) == Turned(window, n + m)
  {
    var w := Ord(window[0]);
    assert ((w + n) % 26 + m) % 26 == (w + n + m) % 26;
  }

  /** Advancing a turned window turns it one further. */
  lemma AdvanceTurned(window: string, n: int)
    requires IsLetterString(window)
    ensures Advance(Turned(window, n)) == Some(Turned(window, n + 1))
  {
    TurnedTwice(window, n, 1);
  }

  /** The wiring's letter at contact `k`, counting modulo 26 as the source's
      `% 26` does. */
  function Contact(t: string, k: int): (c: char)
    requires IsWiring(t)
    ensures IsLetter(c) && c == t[k % 26]
  {
    t[k % 26]
  }

  /** `Rotor.entry_conversion`: the wiring read at the character's contact
      position shifted forward by the window's. */
  function EntryOf(s: RotorState, character: string): (r: Result<char>)
    requires IsWiring(s.wiring)
    ensures r.Err? <==> AlphabetIndex(s.window).None? || AlphabetIndex(character).None?
    ensures r.Err? ==> r.error == SubstringNotFound
    ensures r.Ok? ==> IsLetter(r.value)
    ensures IsLetterString(s.window) && IsLetterString(character) ==>
              r == Ok(Contact(s.wiring, Ord(character[0]) + Ord(s.window[0])))
  {
    match AlphabetIndex(s.window)
    case None => Err(SubstringNotFound)
    case Some(step) =>
      match AlphabetIndex(character)
      case None => Err(SubstringNotFound)
      case Some(entry) => Ok(Contact(s.wiring, entry + step))
  }

  /** Shifting two different positions by the same amount keeps them apart. */
  lemma ShiftInjective(a: int, b: int, w: int)
    requires 0 <= a < 26 && 0 <= b < 26 && 0 <= w < 26 && a != b
    ensures (a + w) % 26 != (b + w) % 26
    ensures (a - w) % 26 != (b - w) % 26
  {
    assert (a + w) % 26 == if a + w < 26 then a + w else a + w - 26;
    assert (b + w) % 26 == if b + w < 26 then b + w else b + w - 26;
    assert (a - w) % 26 == if a - w >= 0 then a - w else a - w + 26;
    assert (b - w) % 26 == if b - w >= 0 then b - w else b - w + 26;
  }

  /** A permutation read at two different letters shifted alike, forward or
      back, gives two different letters. */
  lemma WiringShiftInjective(t: string, w: nat, c1: char, c2: char)
    requires IsPermutation(t) && w < 26 && IsLetter(c1) && IsLetter(c2) && c1 != c2
    ensures Contact(t, Ord(c1) + w) != Contact(t, Ord(c2) + w)
    ensures Contact(t, Ord(c1) - w) != Contact(t, Ord(c2) - w)
  {
    var o1, o2 := Ord(c1), Ord(c2);
    ShiftInjective(o1, o2, w);
    Distinct(t, (o1 + w) % 26, (o2 + w) % 26);
    Distinct(t, (o1 - w) % 26, (o2 - w) % 26);
  }

  lemma Distinct(t: string, i: int, j: int)
    requires NoDuplicates(t) && 0 <= i < |t| && 0 <= j < |t| && i != j
    ensures t[i] != t[j]
  {
    if i > j {
      assert t[j] != t[i];
    }
  }

  /** Every letter stands in a permutation at the position some letter
      reaches once shifted forward, or back, by `w`. */
  lemma WiringShiftHit(t: string, w: nat, d: char) returns (c: char, c': char)
    requires IsPermutation(t) && w < 26 && IsLetter(d)
    ensures IsLetter(c) && Contact(t, Ord(c) + w) == d
    ensures IsLetter(c') && Contact(t, Ord(c') - w) == d
  {
    var k: int :| 0 <= k < 26 && t[k] == d;
    c := Letter(k - w);
    c' := Letter(k + w);
    OrdLetter(k - w);
    OrdLetter(k + w);
    ShiftUndone(k, w);
  }

  /** Shifting back by `w` and then forward, or forward and then back,
      returns to where one started. */
  lemma ShiftUndone(k: int, w: int)
    requires 0 <= k < 26 && 0 <= w < 26
    ensures ((k - w) % 26 + w) % 26 == k
    ensures ((k + w) % 26 - w) % 26 == k
  {
    assert (k - w) % 26 == if k - w >= 0 then k - w else k - w + 26;
    assert (k + w) % 26 == if k + w < 26 then k + w else k + w - 26;
  }

  /** Different letters leave a rotor with a letter window as different letters. */
  lemma EntryInjective(s: RotorState, c1: char, c2: char)
    requires IsPermutation(s.wiring) && IsLetterString(s.window)
    requires IsLetter(c1) && IsLetter(c2) && c1 != c2
    ensures EntryOf(s, [c1]) != EntryOf(s, [c2])
  {
    WiringShiftInjective(s.wiring, Ord(s.window[0]), c1, c2);
    EntryApart(s, c1, c2);
  }

  lemma EntryApart(s: RotorState, c1: char, c2: char)
    requires IsWiring(s.wiring) && IsLetterString(s.window) && IsLetter(c1) && IsLetter(c2)
    requires Contact(s.wiring, Ord(c1) + Ord(s.window[0])) != Contact(s.wiring, Ord(c2) + Ord(s.window[0]))
    ensures EntryOf(s, [c1]) != EntryOf(s, [c2])
  {
    assert [c1][0] == c1 && [c2][0] == c2;
  }

  /** Every letter leaves a rotor with a letter window for some entering letter. */
  lemma EntrySurjective(s: RotorState, d: char) returns (c: char)
    requires IsPermutation(s.wiring) && IsLetterString(s.window) && IsLetter(d)
    ensures IsLetter(c) && EntryOf(s, [c]) == Ok(d)
  {
    var c', _ := WiringShiftHit(s.wiring, Ord(s.window[0]), d);
    c := c';
    assert [c][0] == c;
  }

  /** The letter `Rotor.exit_conversion` returns: the wiring read at the
      character's contact position shifted back by the window's. */
  function ExitOutput(s: RotorState, character: string): (r: Result<char>)
    requires IsWiring(s.wiring)
    ensures r.Err? <==> AlphabetIndex(s.window).None? || AlphabetIndex(character).None?
    ensures r.Err? ==> r.error == SubstringNotFound
    ensures IsLetterString(s.window) && IsLetterString(character) ==>
              r == Ok(Contact(s.wiring, Ord(character[0]) - Ord(s.window[0])))
  {
    match AlphabetIndex(s.window)
    case None => Err(SubstringNotFound)
    case Some(step) =>
      match AlphabetIndex(character)
      case None => Err(SubstringNotFound)
      case Some(entry) => Ok(Contact(s.wiring, entry - step))
  }

  /** `Rotor.exit_conversion`: the new state and the output.  The output is
      computed from the window before any update.  Position 0 then steps the
      rotor; any other position sets the pass flag to whether the window is a
      notch of the model, or fails where the model has no notch table.  A
      failure changes nothing. */
  function ExitOf(s: RotorState, character: string): (r: (RotorState, Result<char>))
    requires IsWiring(s.wiring)
    ensures r.1.Err? <==> ExitOutput(s, character).Err? || (s.position != 0 && s.model !in Windows)
    ensures r.1.Err? ==> r.0 == s
    ensures r.1.Err? ==> r.1.error == if ExitOutput(s, character).Err? then SubstringNotFound else NoNotchTable
    ensures r.1.Ok? ==> r.1 == ExitOutput(s, character) && IsLetter(r.1.value)
    ensures r.1.Ok? && s.position == 0 ==> r.0 == s.(window := Advance(s.window).value)
    ensures r.1.Ok? && s.position != 0 ==> r.0 == s.(pass := s.window in Windows[s.model])
  {
    var out := ExitOutput(s, character);
    if out.Err? then (s, out)
    else if s.position == 0 then (s.(window := Advance(s.window).value), out)
    else if s.model !in Windows then (s, Err(NoNotchTable))
    else (s.(pass := s.window in Windows[s.model]), out)
  }

  /** Different letters leave a rotor with a letter window, on the way back, as
      different letters. */
  lemma ExitInjective(s: RotorState, c1: char, c2: char)
    requires IsPermutation(s.wiring) && IsLetterString(s.window)
    requires IsLetter(c1) && IsLetter(c2) && c1 != c2
    ensures ExitOutput(s, [c1]) != ExitOutput(s, [c2])
  {
    WiringShiftInjective(s.wiring, Ord(s.window[0]), c1, c2);
    ExitApart(s, c1, c2);
  }

  lemma ExitApart(s: RotorState, c1: char, c2: char)
    requires IsWiring(s.wiring) && IsLetterString(s.window)
    requires IsLetter(c1) && IsLetter(c2)
    requires Contact(s.wiring, Ord(c1) - Ord(s.window[0])) != Contact(s.wiring, Ord(c2) - Ord(s.window[0]))
    ensures ExitOutput(s, [c1]) != ExitOutput(s, [c2])
  {
    assert [c1][0] == c1 && [c2][0] == c2;
  }

  /** Every letter leaves a rotor with a letter window, on the way back, for
      some entering letter. */
  lemma ExitSurjective(s: RotorState, d: char) returns (c: char)
    requires IsPermutation(s.wiring) && IsLetterString(s.window) && IsLetter(d)
    ensures IsLetter(c) && ExitOutput(s, [c]) == Ok(d)
  {
    var _, c' := WiringShiftHit(s.wiring, Ord(s.window[0]), d);
    c := c';
    assert [c][0] == c;
  }

  /** A rotor object.  The model, wiring and position are fixed at
      construction; `Window` and `Pass` change as the machine is used. */
  class Rotor {
    const Model: string
    const Wiring: string
    const Position: int
    var Window: string
    var Pass: bool

    /** The wiring is the one stored for the model (which makes it a
        wiring of 26 letters). */
    predicate Valid() {
      Model in Models && Wiring == Models[Model] && IsWiring(Wiring)
    }

    /** The fields as a value. */
    function View(): (s: RotorState)
      reads this
      ensures Valid() <==> s.WellFormed() && IsWiring(s.wiring)
    {
      RotorState(Model, Wiring, Position, Window, Pass)
    }

    constructor (model: string, window: string, position: int)
      requires Normalize(model) in Models
      ensures Valid()
      ensures View() == InitialState(model, window, position).value
    {
      var name := Normalize(model);
      WiringsArePermutations();
      Model := name;
      Wiring := Models[name];
      Position := position;
      Window := Normalize(window);
      Pass := false;
    }

    /** `Rotor(model, window, position)`, including the model-name check. */
    static method New(model: string, window: string, position: int) returns (r: Result<Rotor>)
      ensures r.Ok? <==> InitialState(model, window, position).Ok?
      ensures r.Err? ==> r.error == InitialState(model, window, position).error
      ensures r.Ok? ==> fresh(r.value) && r.value.Valid()
      ensures r.Ok? ==> r.value.View() == InitialState(model, window, position).value
    {
      if Normalize(model) !in Models {
        return Err(UnknownRotorModel);
      }
      var rotor := new Rotor(model, window, position);
      return Ok(rotor);
    }

    /** `entry_conversion`; the `step` argument is ignored, as in the source. */
    function EntryConversion(character: string, step: string): (r: Result<char>)
      reads this
      requires Valid()
      ensures r.Err? <==> AlphabetIndex(Window).None? || AlphabetIndex(character).None?
      ensures IsLetterString(Window) && IsLetterString(character) ==>
                r == Ok(Contact(Wiring, Ord(character[0]) + Ord(Window[0])))
    {
      var s := View();
      assert s.wiring == Wiring && s.window == Window && IsWiring(s.wiring);
      EntryOf(s, character)
    }

    /** `check_passing`. */
    function CheckPassing(): (p: bool)
      reads this
      ensures p == Pass
    {
      Pass
    }

    /** `step`: move the window on by one letter; false where the window is
        not found in the contact string. */
    method Step() returns (ok: bool)
      modifies this
      ensures ok <==> Advance(old(Window)).Some?
      ensures ok ==> Window == Advance(old(Window)).value
      ensures !ok ==> Window == old(Window)
      ensures Pass == old(Pass)
    {
      var index := AlphabetIndex(Window);
      if index.None? {
        return false;
      }
      Window := [Alphabet[(index.value + 1) % 26]];
      return true;
    }

    /** `exit_conversion`; the `step` argument is ignored, as in the source. */
    method ExitConversion(character: string, step: string) returns (r: Result<char>)
      requires Valid()
      modifies this
      ensures r == ExitOf(old(View()), character).1
      ensures View() == ExitOf(old(View()), character).0
    {
      ghost var s0 := View();
      var stepIndex := AlphabetIndex(Window);
      if stepIndex.None? {
        return Err(SubstringNotFound);
      }
      var entry := AlphabetIndex(character);
      if entry.None? {
        return Err(SubstringNotFound);
      }
      var endChar := Contact(Wiring, entry.value as int - stepIndex.value as int);
      assert ExitOutput(s0, character) == Ok(endChar);
      if Position == 0 {
        var _ := Step();
        assert Window == Advance(s0.window).value;
      } else if Model !in Windows {
        return Err(NoNotchTable);
      } else {
        Pass := Window in Windows[Model];
      }
      return Ok(endChar);
    }
  }
}
