/** The reflector: a fixed wiring chosen by model name that sends the signal
    back through the rotors. */
module Reflectors {
  import opened Outcomes
  import opened Strings

  /** The model names the constructor accepts, compared before any normalisation. */
  const ReflectorModels: seq<string> := ["B", "C", "BT", "CT"]

  const B: string := "YRUHQSLDPXNGOKMIEBFZCWVJAT"
  const C: string := "FVPJIAOYEDRZXWGCTKUQSBNMHL"
  const BT: string := "ENKQAUYWJICOPBLMDXZVFTHRGS"
  const CT: string := "RDOBJNTKVEHMLFCWZAXGYIPSUQ"

  /** The table stored under a model name (`getattr(self, name)`). */
  function Table(name: string): (t: string)
    requires name in ReflectorModels
    ensures Reflector(t).Valid() && IsReflection(t)
  {
    TablesAreReflections();
    if name == "B" then B
    else if name == "C" then C
    else if name == "BT" then BT
    else CT
  }

  /** A reflector holds its table, `conf`; the contacts are the alphabet. */
  datatype Reflector = Reflector(conf: string) {
    predicate Valid() {
      conf in [B, C, BT, CT]
    }
  }

  /** Position k of `t` holds a letter other than the k-th, and that
      letter's position holds the k-th letter back. */
  predicate ReflectsAt(t: string, k: int)
    requires |t| == 26 && 0 <= k < 26
  {
    IsLetter(t[k]) && t[k] != Alphabet[k] && t[Ord(t[k])] == Alphabet[k]
  }

  /** `t` pairs the 26 letters off: a fixed-point-free involution. */
  predicate IsReflection(t: string) {
    |t| == 26 && forall k :: 0 <= k < 26 ==> ReflectsAt(t, k)
  }

  lemma CheckB() ensures IsReflection(B) {
    forall k | 0 <= k < 26 ensures ReflectsAt(B, k) { Below26(k); }
  }

  lemma CheckC() ensures IsReflection(C) {
    forall k | 0 <= k < 26 ensures ReflectsAt(C, k) { Below26(k); }
  }

  lemma CheckBT() ensures IsReflection(BT) {
    forall k | 0 <= k < 26 ensures ReflectsAt(BT, k) { Below26(k); }
  }

  lemma CheckCT() ensures IsReflection(CT) {
    forall k | 0 <= k < 26 ensures ReflectsAt(CT, k) { Below26(k); }
  }

  /** Each of the four tables is a fixed-point-free involution of A..Z. */
  lemma TablesAreReflections()
    ensures IsReflection(B) && IsReflection(C) && IsReflection(BT) && IsReflection(CT)
  {
    CheckB();
    CheckC();
    CheckBT();
    CheckCT();
  }

  lemma ValidIsReflection(reflector: Reflector)
    requires reflector.Valid()
    ensures IsReflection(reflector.conf)
  {
    TablesAreReflections();
  }

  /** `Reflector(model)`: only the exact names B, C, BT and CT are accepted;
      the normalisation applied afterwards leaves them as they are. */
  function NewReflector(model: string): (r: Result<Reflector>)
    ensures r.Ok? <==> model in ReflectorModels
    ensures r.Err? ==> r.error == UnknownReflectorModel
    ensures r.Ok? ==> r.value.Valid() && IsReflection(r.value.conf)
    ensures model == "B" ==> r == Ok(Reflector(B))
    ensures model == "C" ==> r == Ok(Reflector(C))
    ensures model == "BT" ==> r == Ok(Reflector(BT))
    ensures model == "CT" ==> r == Ok(Reflector(CT))
  {
    if model !in ReflectorModels then Err(UnknownReflectorModel)
    else
      assert forall i :: 0 <= i < |model| ==> IsCanonical(model[i]);
      NormalizeCanonical(model);
      TablesAreReflections();
      Ok(Reflector(Table(Normalize(model))))
  }

  /** `Reflector.reflect`: the table entry at the character's contact position. */
  function Reflect(reflector: Reflector, character: string): (r: Result<char>)
    requires reflector.Valid()
    ensures r.Err? <==> AlphabetIndex(character).None?
    ensures r.Err? ==> r.error == SubstringNotFound
    ensures r.Ok? ==> IsLetter(r.value)
  {
    ValidIsReflection(reflector);
    match AlphabetIndex(character)
    case None => Err(SubstringNotFound)
    case Some(k) =>
      assert ReflectsAt(reflector.conf, k);
      Ok(reflector.conf[k])
  }

  /** On a one-letter string, `reflect` reads the table at the letter's
      position. */
  lemma ReflectLetter(reflector: Reflector, c: char)
    requires reflector.Valid() && IsLetter(c)
    ensures Reflect(reflector, [c]) == Ok(reflector.conf[Ord(c)])
  {
  }

  /** On a letter, reflecting gives a different letter, and reflecting that
      gives the first letter back. */
  lemma ReflectInvolution(reflector: Reflector, c: char)
    requires reflector.Valid() && IsLetter(c)
    ensures Reflect(reflector, [c]).Ok?
    ensures Reflect(reflector, [c]).value != c
    ensures Reflect(reflector, [Reflect(reflector, [c]).value]) == Ok(c)
  {
    var t := reflector.conf;
    ValidIsReflection(reflector);
    var k := Ord(c);
    assert ReflectsAt(t, k);
    var d := t[k];
    assert Reflect(reflector, [c]) == Ok(d);
  }
}
