/** The plugboard: a set of letter pairs validated when the board is built,
    and the swap applied to a character on its way in and out of the machine. */
module Plugboards {
  import opened Outcomes
  import opened Seqs
  import opened Strings

  /** Most pairs a board accepts. */
  const MaxSwaps := 10

  /** A board holds the Python set of its pairs, listed in the order in which
      that set iterates (an order the Python runtime chooses). */
  datatype Plugboard = Plugboard(swaps: seq<string>) {
    function Swaps(): set<string> {
      Elems(swaps)
    }

    /** Every pair has two characters, as `passing` expects. */
    predicate Paired() {
      forall p :: p in swaps ==> |p| == 2
    }

    /** What the setter guarantees of every board it lets through. */
    ghost predicate Valid() {
      && NoDuplicates(swaps)
      && |swaps| <= MaxSwaps
      && Paired()
      && CharsDisjoint(Swaps())
    }
  }

  /** No character occurs twice among all the pairs of `swaps`, within a pair
      or across two pairs. */
  ghost predicate CharsDisjoint(swaps: set<string>) {
    forall p, q, i, j ::
      p in swaps && q in swaps && 0 <= i < |p| && 0 <= j < |q| && (p != q || i != j) ==> p[i] != q[j]
  }

  /** `"".join(order)`; two-character pairs give twice as many characters. */
  function Join(order: seq<string>): (r: string)
    ensures (forall p :: p in order ==> |p| == 2) ==> |r| == 2 * |order|
  {
    if order == [] then "" else order[0] + Join(order[1..])
  }

  /** Character `i` of pair `k` stands at position `2 * k + i` of the join. */
  lemma {:induction false} JoinIndex(order: seq<string>, k: nat, i: nat)
    requires forall p :: p in order ==> |p| == 2
    requires k < |order| && i < 2
    ensures |Join(order)| == 2 * |order| && Join(order)[2 * k + i] == order[k][i]
  {
    if k > 0 {
      JoinIndex(order[1..], k - 1, i);
      assert Join(order) == order[0] + Join(order[1..]);
    }
  }

  /** For distinct two-character pairs, the joined string repeats no character
      exactly when the pairs share no character: the setter's check does not
      depend on the order in which the set is joined. */
  lemma JoinDistinct(order: seq<string>)
    requires NoDuplicates(order)
    requires forall p :: p in order ==> |p| == 2
    ensures NoDuplicates(Join(order)) <==> CharsDisjoint(Elems(order))
  {
    if NoDuplicates(Join(order)) {
      JoinDistinctToDisjoint(order);
    }
    if CharsDisjoint(Elems(order)) {
      DisjointToJoinDistinct(order);
    }
  }

  lemma JoinDistinctToDisjoint(order: seq<string>)
    requires forall p :: p in order ==> |p| == 2
    requires NoDuplicates(Join(order))
    ensures CharsDisjoint(Elems(order))
  {
    forall p, q, i, j | p in Elems(order) && q in Elems(order) && 0 <= i < |p| && 0 <= j < |q| && (p != q || i != j)
      ensures p[i] != q[j]
    {
      var k :| 0 <= k < |order| && order[k] == p;
      var l :| 0 <= l < |order| && order[l] == q;
      if p == q {
        JoinApart(order, k, i, k, j);
      } else {
        JoinApart(order, k, i, l, j);
      }
    }
  }

  /** Two different positions of the joined pairs hold different characters. */
  lemma JoinApart(order: seq<string>, k: nat, i: nat, l: nat, j: nat)
    requires forall p :: p in order ==> |p| == 2
    requires NoDuplicates(Join(order))
    requires k < |order| && l < |order| && i < 2 && j < 2 && (k != l || i != j)
    ensures order[k][i] != order[l][j]
  {
    JoinIndex(order, k, i);
    JoinIndex(order, l, j);
    var m, n := 2 * k + i, 2 * l + j;
    var joined := Join(order);
    if m < n {
      assert joined[m] != joined[n];
    } else {
      assert joined[n] != joined[m];
    }
  }

  lemma DisjointToJoinDistinct(order: seq<string>)
    requires NoDuplicates(order)
    requires forall p :: p in order ==> |p| == 2
    requires CharsDisjoint(Elems(order))
    ensures NoDuplicates(Join(order))
  {
    forall a, b | 0 <= a < b < |Join(order)| ensures Join(order)[a] != Join(order)[b] {
      JoinedApart(order, a, b);
    }
  }

  /** Two positions of the joined pairs hold different characters when the
      pairs are disjoint. */
  lemma JoinedApart(order: seq<string>, a: nat, b: nat)
    requires NoDuplicates(order)
    requires forall p :: p in order ==> |p| == 2
    requires CharsDisjoint(Elems(order))
    requires a < b < |Join(order)|
    ensures Join(order)[a] != Join(order)[b]
  {
    var k, i := Halve(a);
    var l, j := Halve(b);
    JoinIndex(order, k, i);
    JoinIndex(order, l, j);
    DisjointApart(order, k, i, l, j);
  }

  /** A position of the joined pairs as pair `k`, character `i`. */
  lemma Halve(a: nat) returns (k: nat, i: nat)
    ensures a == 2 * k + i && i < 2
  {
    k, i := a / 2, a % 2;
  }

  /** Two different characters of disjoint pairs differ. */
  lemma DisjointApart(order: seq<string>, k: nat, i: nat, l: nat, j: nat)
    requires NoDuplicates(order)
    requires forall p :: p in order ==> |p| == 2
    requires CharsDisjoint(Elems(order))
    requires k < |order| && l < |order| && i < 2 && j < 2 && (k != l || i != j)
    ensures order[k][i] != order[l][j]
  {
    assert order[k] in Elems(order) && order[l] in Elems(order);
    if k != l {
      assert order[k] != order[l];
    }
  }

  /** The `swaps` setter, given the set `swaps` in its iteration order. */
  function SetSwaps(order: seq<string>): (r: Result<seq<string>>)
    requires NoDuplicates(order)
    ensures r.Ok? <==> Plugboard(order).Valid()
    ensures r.Ok? ==> r.value == order
    ensures r.Err? ==> r.error == if |order| > MaxSwaps then TooManySwaps
                                  else if exists p :: p in order && |p| != 2 then SwapNotTwoCharacters
                                  else CharacterSwappedTwice
  {
    if |order| > MaxSwaps then Err(TooManySwaps)
    else if exists p :: p in order && |p| != 2 then Err(SwapNotTwoCharacters)
    else
      var joined := Join(order);
      JoinDistinct(order);
      DistinctCount(joined);
      if |Elems(joined)| != |joined| then Err(CharacterSwappedTwice)
      else Ok(order)
  }

  /** `Plugboard(*args)`: the arguments are first collapsed into a set, which
      the setter sees in the iteration order `order`.  Acceptance and the error
      raised are stated on the set alone, whatever that order is. */
  function NewPlugboard(args: seq<string>, order: seq<string>): (r: Result<Plugboard>)
    requires Enumerates(order, Elems(args))
    ensures r.Ok? <==>
              && |Elems(args)| <= MaxSwaps
              && (forall p :: p in args ==> |p| == 2)
              && CharsDisjoint(Elems(args))
    ensures r.Ok? ==> r.value.Valid() && r.value.Swaps() == Elems(args)
    ensures r.Err? ==> r.error == if |Elems(args)| > MaxSwaps then TooManySwaps
                                  else if exists p :: p in args && |p| != 2 then SwapNotTwoCharacters
                                  else CharacterSwappedTwice
  {
    EnumerationLength(order, Elems(args));
    assert forall p :: p in order <==> p in args by {
      assert forall p :: p in order <==> p in Elems(order);
      assert forall p :: p in args <==> p in Elems(args);
    }
    match SetSwaps(order)
    case Err(e) => Err(e)
    case Ok(swaps) => Ok(Plugboard(swaps))
  }

  /** The same pair given twice collapses into one, which is accepted. */
  lemma RepeatedPairAccepted()
    ensures NewPlugboard(["AB", "AB"], ["AB"]) == Ok(Plugboard(["AB"]))
  {
    var args := ["AB", "AB"];
    assert Elems(args) == {"AB"} && Elems(["AB"]) == {"AB"};
    assert CharsDisjoint(Elems(args)) by {
      assert "AB"[0] != "AB"[1];
    }
  }

  /** A pair and its reverse share both characters: whichever order the set
      iterates in, the setter refuses them. */
  lemma ReversedPairRejected(order: seq<string>)
    requires Enumerates(order, Elems(["AB", "BA"]))
    ensures NewPlugboard(["AB", "BA"], order) == Err(CharacterSwappedTwice)
  {
    var args := ["AB", "BA"];
    assert Elems(args) == {"AB", "BA"};
    assert forall p :: p in args ==> |p| == 2;
    assert "AB"[0] == "BA"[1];
    assert !CharsDisjoint(Elems(args));
  }

  /** `x[x.index(c) - 1]` for a pair `x` holding `c`: the other character of
      the pair, Python's index -1 being the last one. */
  function Partner(x: string, c: string): (r: string)
    requires |x| == 2 && Find(x, c).Some?
    ensures |r| == 1
    ensures c == [x[0]] || c == "" ==> r == [x[1]]
    ensures c == [x[1]] && x[0] != x[1] ==> r == [x[0]]
  {
    FindSpec(x, c);
    var k := Find(x, c).value - 1;
    [if k < 0 then x[|x| + k] else x[k]]
  }

  /** The loop over the pairs in iteration order: the first pair holding `c`
      as a substring decides the answer; with none, `c` comes back. */
  function SwapIn(order: seq<string>, c: string): (r: string)
    requires forall p :: p in order ==> |p| == 2
    ensures r == c || exists k :: 0 <= k < |order| && Find(order[k], c).Some? && r == Partner(order[k], c)
  {
    if order == [] then c
    else if Find(order[0], c).Some? then Partner(order[0], c)
    else SwapIn(order[1..], c)
  }

  /** `Plugboard.passing`: normalise the character, then swap it. */
  function Passing(board: Plugboard, character: string): (r: string)
    requires board.Paired()
    ensures board.swaps == [] ==> r == Normalize(character)
    ensures r == Normalize(character) || |r| == 1
  {
    var c := Normalize(character);
    if board.swaps == [] then c else SwapIn(board.swaps, c)
  }

  /** `passing` returns the normalised input or the partner of that input in
      one of the pairs holding it. */
  lemma PassingOutcome(board: Plugboard, character: string)
    requires board.Paired()
    ensures var c := Normalize(character);
            Passing(board, character) == c ||
            exists x :: x in board.swaps && Find(x, c).Some? && Passing(board, character) == Partner(x, c)
  {
    var c := Normalize(character);
    if Passing(board, character) != c {
      var k :| 0 <= k < |board.swaps| && Find(board.swaps[k], c).Some? && Passing(board, character) == Partner(board.swaps[k], c);
      assert board.swaps[k] in board.swaps;
    }
  }


  lemma {:induction false} SwapInHolder(order: seq<string>, c: string, x: string)
    requires forall p :: p in order ==> |p| == 2
    requires x in order && Find(x, c).Some?
    requires forall y :: y in order && y != x ==> Find(y, c).None?
    ensures SwapIn(order, c) == Partner(x, c)
  {
    if order[0] != x {
      SwapInHolder(order[1..], c, x);
    }
  }

  lemma {:induction false} SwapInNoHolder(order: seq<string>, c: string)
    requires forall p :: p in order ==> |p| == 2
    requires forall y :: y in order ==> Find(y, c).None?
    ensures SwapIn(order, c) == c
  {
    if order != [] {
      SwapInNoHolder(order[1..], c);
    }
  }

  /** With disjoint pairs, at most one pair holds a given non-empty string. */
  lemma OneHolder(swaps: set<string>, c: string, x: string, y: string)
    requires CharsDisjoint(swaps) && x in swaps && y in swaps && |c| > 0
    requires Find(x, c).Some? && Find(y, c).Some?
    ensures x == y
  {
    FindSpec(x, c);
    FindSpec(y, c);
    var k, l := Find(x, c).value, Find(y, c).value;
    assert x[k..k + |c|] == c && y[l..l + |c|] == c;
    assert x[k] == c[0] == y[l];
  }

  /** The pair holding the normalised character decides `Passing`. */
  lemma PassingHeld(board: Plugboard, character: string, x: string)
    requires board.Valid() && |Normalize(character)| > 0
    requires x in board.swaps && Find(x, Normalize(character)).Some?
    ensures Passing(board, character) == Partner(x, Normalize(character))
  {
    var c := Normalize(character);
    forall y | y in board.swaps && y != x ensures Find(y, c).None? {
      if Find(y, c).Some? {
        OneHolder(board.Swaps(), c, x, y);
      }
    }
    SwapInHolder(board.swaps, c, x);
  }

  /** With no pair holding the normalised character, `Passing` returns it. */
  lemma PassingNotHeld(board: Plugboard, character: string)
    requires board.Valid()
    requires forall x :: x in board.swaps ==> Find(x, Normalize(character)).None?
    ensures Passing(board, character) == Normalize(character)
  {
    if board.swaps != [] {
      SwapInNoHolder(board.swaps, Normalize(character));
    }
  }

  /** A letter in a pair comes out as the other letter of that pair, from
      either side. */
  lemma PassingSwapsPair(board: Plugboard, a: char, b: char, character: string)
    requires board.Valid() && [a, b] in board.swaps
    requires Normalize(character) == [a] || Normalize(character) == [b]
    ensures Normalize(character) == [a] ==> Passing(board, character) == [b]
    ensures Normalize(character) == [b] ==> Passing(board, character) == [a]
  {
    var x := [a, b];
    var c := Normalize(character);
    assert a != b by {
      assert x in board.Swaps() && x[0] == a && x[1] == b;
    }
    FindSpec(x, c);
    if c == [a] {
      assert x[0..1] == [a] == c;
      assert OccursAt(x, c, 0);
    } else {
      assert x[1..2] == [b] == c;
      assert OccursAt(x, c, 1);
    }
    PassingHeld(board, character, x);
  }

  /** A character in no pair comes out unchanged (after normalisation). */
  lemma PassingUnpaired(board: Plugboard, d: char, character: string)
    requires board.Valid() && Normalize(character) == [d]
    requires forall x :: x in board.swaps ==> d !in x
    ensures Passing(board, character) == [d]
  {
    forall x | x in board.swaps ensures Find(x, [d]).None? {
      FindSpec(x, [d]);
      forall j | 0 <= j ensures !OccursAt(x, [d], j) {
        if j < |x| {
          assert x[j..j + 1] == [x[j]];
        }
      }
    }
    PassingNotHeld(board, character);
  }

  /** With valid pairs the swap of a non-empty input does not depend on the
      order in which the pair set is iterated. */
  lemma PassingOrderIndependent(order1: seq<string>, order2: seq<string>, character: string)
    requires Plugboard(order1).Valid() && Plugboard(order2).Valid()
    requires Elems(order1) == Elems(order2)
    requires |Normalize(character)| > 0
    ensures Passing(Plugboard(order1), character) == Passing(Plugboard(order2), character)
  {
    var c := Normalize(character);
    var b1, b2 := Plugboard(order1), Plugboard(order2);
    assert forall x :: x in order1 <==> x in order2 by {
      assert forall x :: x in order1 <==> x in Elems(order1);
      assert forall x :: x in order2 <==> x in Elems(order2);
    }
    if x :| x in order1 && Find(x, c).Some? {
      PassingHeld(b1, character, x);
      PassingHeld(b2, character, x);
    } else {
      PassingNotHeld(b1, character);
      PassingNotHeld(b2, character);
    }
  }

  /** Every character of every pair is one that normalisation leaves alone
      (an upper-case, non-blank character). */
  predicate CanonicalPairs(board: Plugboard) {
    forall x, i :: x in board.swaps && 0 <= i < |x| ==> IsCanonical(x[i])
  }

  /** Swapping twice gives back the normalised character, for a single-character
      input and pairs written in canonical characters. */
  lemma PassingInvolution(board: Plugboard, character: string)
    requires board.Valid() && CanonicalPairs(board)
    requires |Normalize(character)| == 1
    ensures Passing(board, Passing(board, character)) == Normalize(character)
  {
    var c := Normalize(character);
    if x :| x in board.swaps && Find(x, c).Some? {
      PassingInvolutionHeld(board, character, x);
    } else {
      PassingNotHeld(board, character);
      assert IsCanonical(c[0]);
      NormalizeCanonical(c);
      PassingNotHeld(board, c);
    }
  }

  lemma PassingInvolutionHeld(board: Plugboard, character: string, x: string)
    requires board.Valid() && CanonicalPairs(board)
    requires |Normalize(character)| == 1
    requires x in board.swaps && Find(x, Normalize(character)).Some?
    ensures Passing(board, Passing(board, character)) == Normalize(character)
  {
    var a, b := HeldPair(board, Normalize(character), x);
    PassingSwapsPair(board, a, b, character);
    var d := Passing(board, character);
    NormalizeCanonical(d);
    PassingSwapsPair(board, a, b, d);
  }

  /** The two characters of a pair holding the single character `c`, one of
      which is `c`. */
  lemma HeldPair(board: Plugboard, c: string, x: string) returns (a: char, b: char)
    requires board.Valid() && CanonicalPairs(board) && |c| == 1
    requires x in board.swaps && Find(x, c).Some?
    ensures x == [a, b] && (c == [a] || c == [b]) && IsCanonical(a) && IsCanonical(b)
  {
    FindSpec(x, c);
    var k := Find(x, c).value;
    assert x[k..k + 1] == c;
    a, b := x[0], x[1];
    assert x == [a, b];
  }

  /** Every character of every pair is a letter A..Z. */
  predicate LetterPairs(board: Plugboard) {
    forall x, i :: x in board.swaps && 0 <= i < |x| ==> IsLetter(x[i])
  }

  /** With pairs of letters, a letter passes the board as a letter. */
  lemma PassingLetter(board: Plugboard, character: string)
    requires board.Valid() && LetterPairs(board) && IsLetterString(character)
    ensures IsLetterString(Passing(board, character))
  {
    var c := character[0];
    assert character == [c];
    NormalizeLetter(c);
    if x :| x in board.swaps && Find(x, [c]).Some? {
      PassingHeld(board, [c], x);
      FindSpec(x, [c]);
      assert IsLetter(x[0]) && IsLetter(x[1]);
    } else {
      PassingNotHeld(board, [c]);
    }
  }
}
