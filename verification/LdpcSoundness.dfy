/** Min-sum soundness: evidence that never contradicts a codeword keeps every posterior on
    that codeword's side, whatever is erased and however many iterations run. */
module LdpcSoundness {
  import opened Params
  import opened Llr
  import opened LdpcCode
  import opened LdpcEncoder
  import opened LdpcDecoder

  // ---- Messages of one check ----

  /** The scan holds the least magnitude, where it is, and the least of all others. */
  lemma {:induction false} ScanBounds(q: seq<real>, n: nat)
    requires n <= |q|
    ensures var s := ScanTo(q, n);
            && (n >= 1 ==> s.min1.Finite? && s.minIdx < n && s.min1.v == Abs(q[s.minIdx]))
            && (n >= 2 ==> s.min2.Finite? && exists i :: 0 <= i < n && i != s.minIdx && s.min2.v == Abs(q[i]))
            && (n == 1 ==> s.min2.Infinite?)
            && (forall i | 0 <= i < n :: s.min1.v <= Abs(q[i]))
            && (forall i | 0 <= i < n && i != s.minIdx :: s.min2.v <= Abs(q[i]))
            && (n >= 2 ==> s.min1.v <= s.min2.v)
  {
    if n > 1 {
      ScanBounds(q, n - 1);
      var (r, s) := (ScanTo(q, n - 1), ScanTo(q, n));
      if s.minIdx != r.minIdx {
        assert s.min2.v == Abs(q[r.minIdx]);
      } else if s.min2 != r.min2 {
        assert s.min2.v == Abs(q[n - 1]);
      }
    }
  }

  function NegParity(q: seq<real>, n: nat): bool
    requires n <= |q|
  {
    if n == 0 then false else NegParity(q, n - 1) != (q[n - 1] < 0.0)
  }

  lemma {:induction false} ScanSign(q: seq<real>, n: nat)
    requires n <= |q|
    ensures ScanTo(q, n).neg == NegParity(q, n)
  {
    if n > 0 {
      ScanSign(q, n - 1);
    }
  }

  /** How many of the first `n` entries other than the `i`-th are negative, modulo two. */
  function OthersNegative(q: seq<real>, i: nat, n: nat): bool
    requires n <= |q|
  {
    if n == 0 then false else OthersNegative(q, i, n - 1) != (n - 1 != i && q[n - 1] < 0.0)
  }

  lemma {:induction false} ParityOfOthers(q: seq<real>, i: nat, n: nat)
    requires n <= |q|
    ensures OthersNegative(q, i, n) == (NegParity(q, n) != (i < n && q[i] < 0.0))
  {
    if n > 0 {
      ParityOfOthers(q, i, n - 1);
    }
  }

  /** `a` is the least magnitude among the entries other than the `i`-th. */
  ghost predicate LeastOther(q: seq<real>, i: nat, a: real) {
    && (exists j :: 0 <= j < |q| && j != i && a == Abs(q[j]))
    && (forall j | 0 <= j < |q| && j != i :: a <= Abs(q[j]))
  }

  /** The message to a variable is eight tenths of the least of the other values, with the product of
      their signs. */
  lemma {:induction false} MessageIs(q: seq<real>, i: nat)
    requires |q| >= 2 && i < |q|
    ensures var m := Message(ScanTo(q, |q|), i, q[i]);
            exists a :: LeastOther(q, i, a) && m == if OthersNegative(q, i, |q|) then -(0.8 * a) else 0.8 * a
  {
    hide ScanTo, NegParity, OthersNegative;
    var s := ScanTo(q, |q|);
    ScanBounds(q, |q|);
    ScanSign(q, |q|);
    ParityOfOthers(q, i, |q|);
    var a := if i == s.minIdx then s.min2.v else s.min1.v;
    assert LeastOther(q, i, a);
  }

  /** If all entries but one carry the sign of their bits, the parities differ as that entry does. */
  lemma {:induction false} ParityExcept(q: seq<real>, check: seq<nat>, word: seq<Bit>, i: nat, n: nat)
    requires n <= |q| == |check| && i < |q|
    requires forall j | 0 <= j < n && j != i :: (q[j] < 0.0) == BitAt(word, check[j])
    ensures (NegParity(q, n) == ParityOf(check, word, n))
            == (n <= i || (q[i] < 0.0) == BitAt(word, check[i]))
  {
    hide BitAt;
    if n > 0 {
      ParityExcept(q, check, word, i, n - 1);
    }
  }

  /** A check that the codeword satisfies never sends evidence against the codeword. */
  lemma {:induction false} MessageToward(q: seq<real>, check: seq<nat>, word: seq<Bit>, i: nat)
    requires |q| == |check| >= 2 && i < |q|
    requires !ParityOf(check, word, |check|)
    requires forall j | 0 <= j < |q| :: Toward(q[j], BitAt(word, check[j])) >= 0.0
    ensures Toward(Message(ScanTo(q, |q|), i, q[i]), BitAt(word, check[i])) >= 0.0
  {
    hide ScanTo, ParityOf, NegParity, BitAt;
    var s := ScanTo(q, |q|);
    ScanBounds(q, |q|);
    ScanSign(q, |q|);
    if j :| 0 <= j < |q| && j != i && q[j] == 0.0 {
      assert Message(s, i, q[i]) == 0.0;
    } else {
      ParityExcept(q, check, word, i, |q|);
    }
  }

  // ---- Conservation of evidence ----

  /** All variables in adjacency order: entry `e` receives message `e`. */
  function EdgeVars(checks: seq<seq<nat>>, c: nat): (vars: seq<nat>)
    requires c <= |checks|
    ensures |vars| == Offset(checks, c)
  {
    if c == 0 then [] else EdgeVars(checks, c - 1) + checks[c - 1]
  }

  lemma {:induction false} EdgeOf(checks: seq<seq<nat>>, c: nat, i: nat, n: nat)
    requires c < n <= |checks| && i < |checks[c]|
    ensures Offset(checks, c) + i < Offset(checks, n)
    ensures EdgeVars(checks, n)[Offset(checks, c) + i] == checks[c][i]
  {
    if c < n - 1 {
      EdgeOf(checks, c, i, n - 1);
    }
  }

  /** Sum of the first `n` messages addressed to variable `v`. */
  function Received(edges: seq<nat>, msgs: seq<real>, v: nat, n: nat): real
    requires n <= |edges| == |msgs|
  {
    if n == 0 then 0.0
    else Received(edges, msgs, v, n - 1) + (if edges[n - 1] == v then msgs[n - 1] else 0.0)
  }

  lemma {:induction false} ReceivedUpdate(edges: seq<nat>, msgs: seq<real>, e: nat, x: real, v: nat, n: nat)
    requires n <= |edges| == |msgs| && e < |msgs|
    ensures Received(edges, msgs[e := x], v, n)
            == Received(edges, msgs, v, n) + (if e < n && edges[e] == v then x - msgs[e] else 0.0)
  {
    if n > 0 {
      ReceivedUpdate(edges, msgs, e, x, v, n - 1);
    }
  }

  /** Messages toward the word leave, without any one of them, a sum toward the word. */
  lemma {:induction false} ReceivedToward(edges: seq<nat>, msgs: seq<real>, word: seq<Bit>, e: nat, v: nat, n: nat)
    requires n <= |edges| == |msgs| && e < |msgs|
    requires forall k | 0 <= k < |msgs| :: Toward(msgs[k], BitAt(word, edges[k])) >= 0.0
    ensures Toward(Received(edges, msgs, v, n), BitAt(word, v)) >= 0.0
    ensures e < n && edges[e] == v ==> Toward(Received(edges, msgs, v, n) - msgs[e], BitAt(word, v)) >= 0.0
  {
    hide BitAt;
    if n > 0 {
      ReceivedToward(edges, msgs, word, e, v, n - 1);
      assert Toward(msgs[n - 1], BitAt(word, edges[n - 1])) >= 0.0;
    }
  }

  /** Every posterior is the channel evidence plus the messages received, and no message
      contradicts the word. */
  ghost predicate Conserved(edges: seq<nat>, llrs: seq<real>, word: seq<Bit>, b: Beliefs) {
    && |b.post| == |llrs| && |b.msgs| == |edges|
    && (forall v | 0 <= v < |llrs| :: b.post[v] == llrs[v] + Received(edges, b.msgs, v, |edges|))
    && (forall e | 0 <= e < |edges| :: Toward(b.msgs[e], BitAt(word, edges[e])) >= 0.0)
  }

  lemma {:induction false} ExtrinsicToward(edges: seq<nat>, llrs: seq<real>, word: seq<Bit>, b: Beliefs, e: nat)
    requires Conserved(edges, llrs, word, b) && NoneWrong(llrs, word)
    requires e < |edges| && edges[e] < |llrs|
    ensures Toward(b.post[edges[e]] - b.msgs[e], BitAt(word, edges[e])) >= 0.0
  {
    ReceivedToward(edges, b.msgs, word, e, edges[e], |edges|);
  }

  /** Replacing one message and correcting its variable's posterior conserves evidence. */
  lemma {:induction false} ReplaceMessage(edges: seq<nat>, llrs: seq<real>, word: seq<Bit>, b: Beliefs, e: nat, m: real)
    requires Conserved(edges, llrs, word, b) && e < |edges| && edges[e] < |llrs|
    requires Toward(m, BitAt(word, edges[e])) >= 0.0
    ensures Conserved(edges, llrs, word,
                      Beliefs(b.post[edges[e] := b.post[edges[e]] - b.msgs[e] + m], b.msgs[e := m]))
  {
    hide BitAt, Toward, Received;
    var v0 := edges[e];
    var after := Beliefs(b.post[v0 := b.post[v0] - b.msgs[e] + m], b.msgs[e := m]);
    forall v | 0 <= v < |llrs|
      ensures after.post[v] == llrs[v] + Received(edges, after.msgs, v, |edges|)
    {
      ReceivedUpdate(edges, b.msgs, e, m, v, |edges|);
    }
  }

  /** The variables of the check whose messages start at `base`. */
  ghost predicate EdgesAt(edges: seq<nat>, check: seq<nat>, base: nat, n: nat) {
    && base + |check| <= |edges|
    && (forall i | 0 <= i < |check| :: edges[base + i] == check[i] < n)
    && (forall i, j | 0 <= i < j < |check| :: check[i] != check[j])
  }

  /** Not yet written variables and messages are still those the check read. */
  lemma {:induction false} WriteKeeps(b: Beliefs, vars: seq<nat>, base: nat, q: seq<real>, n: nat, i: nat)
    requires n <= i < |vars| == |q| && base + |vars| <= |b.msgs|
    requires forall k | 0 <= k < |vars| :: vars[k] < |b.post|
    requires forall j, k | 0 <= j < k < |vars| :: vars[j] != vars[k]
    ensures WriteTo(b, vars, base, q, n).post[vars[i]] == b.post[vars[i]]
    ensures WriteTo(b, vars, base, q, n).msgs[base + i] == b.msgs[base + i]
  {
    hide Message, ScanTo;
    if n > 0 {
      WriteKeeps(b, vars, base, q, n - 1, i);
    }
  }

  lemma {:induction false} WriteConserves(edges: seq<nat>, llrs: seq<real>, word: seq<Bit>, b: Beliefs,
                                          check: seq<nat>, base: nat, n: nat)
    requires EdgesAt(edges, check, base, |llrs|) && NoneWrong(llrs, word)
    requires Conserved(edges, llrs, word, b)
    requires |check| >= 2 && !ParityOf(check, word, |check|) && n <= |check|
    ensures Conserved(edges, llrs, word, WriteTo(b, check, base, Extrinsic(b, check, base), n))
  {
    hide Message, ScanTo, ParityOf, Conserved, BitAt, NoneWrong, Toward;
    ConservedSizes(edges, llrs, word, b);
    if n > 0 {
      var q := Extrinsic(b, check, base);
      var i := n - 1;
      WriteConserves(edges, llrs, word, b, check, base, i);
      forall j | 0 <= j < |q|
        ensures Toward(q[j], BitAt(word, check[j])) >= 0.0
      {
        assert edges[base + j] == check[j];
        ExtrinsicToward(edges, llrs, word, b, base + j);
      }
      MessageToward(q, check, word, i);
      WriteKeeps(b, check, base, q, i, i);
      ReplaceMessage(edges, llrs, word, WriteTo(b, check, base, q, i), base + i, Message(ScanTo(q, |q|), i, q[i]));
    }
  }

  lemma {:induction false} ConservedSizes(edges: seq<nat>, llrs: seq<real>, word: seq<Bit>, b: Beliefs)
    requires Conserved(edges, llrs, word, b)
    ensures |b.post| == |llrs| && |b.msgs| == |edges|
  {
  }

  // ---- Whole decodings ----

  /** Checks of at least two distinct variables, all satisfied by the word. */
  ghost predicate Lawful(checks: seq<seq<nat>>, word: seq<Bit>) {
    forall c | 0 <= c < |checks| ::
      && |checks[c]| >= 2
      && (forall i | 0 <= i < |checks[c]| :: checks[c][i] < |word|)
      && (forall i, j | 0 <= i < j < |checks[c]| :: checks[c][i] != checks[c][j])
      && !ParityOf(checks[c], word, |checks[c]|)
  }

  lemma {:induction false} SweepConserves(checks: seq<seq<nat>>, llrs: seq<real>, word: seq<Bit>, b: Beliefs, c: nat)
    requires NoneWrong(llrs, word) && Lawful(checks, word) && Fits(checks, |llrs|, b) && c <= |checks|
    requires Conserved(EdgeVars(checks, |checks|), llrs, word, b)
    ensures Conserved(EdgeVars(checks, |checks|), llrs, word, SweepTo(checks, |llrs|, b, c))
  {
    hide Conserved, WriteTo, Extrinsic, EdgeVars, ParityOf, Toward;
    if c > 0 {
      SweepConserves(checks, llrs, word, b, c - 1);
      var edges := EdgeVars(checks, |checks|);
      var (check, base) := (checks[c - 1], Offset(checks, c - 1));
      OffsetMonotone(checks, c, |checks|);
      forall i | 0 <= i < |check|
        ensures edges[base + i] == check[i]
      {
        EdgeOf(checks, c - 1, i, |checks|);
      }
      WriteConserves(edges, llrs, word, SweepTo(checks, |llrs|, b, c - 1), check, base, |check|);
    }
  }

  /** Wherever the channel gave evidence, the decision is the codeword's bit. */
  ghost predicate RightWhereKnown(llrs: seq<real>, word: seq<Bit>, bits: seq<Bit>) {
    |bits| == |word| == |llrs| && forall v | 0 <= v < |word| && llrs[v] != 0.0 :: bits[v] == word[v]
  }

  lemma {:induction false} HardRight(edges: seq<nat>, llrs: seq<real>, word: seq<Bit>, b: Beliefs)
    requires Conserved(edges, llrs, word, b) && NoneWrong(llrs, word) && |edges| > 0
    ensures RightWhereKnown(llrs, word, Hard(b.post))
  {
    forall v | 0 <= v < |word| && llrs[v] != 0.0
      ensures Hard(b.post)[v] == word[v]
    {
      ReceivedToward(edges, b.msgs, word, 0, v, |edges|);
    }
  }

  lemma {:induction false} DecodeFromRight(c: Code, llrs: seq<real>, word: seq<Bit>, b: Beliefs, iters: nat)
    requires c.Valid() && |llrs| == c.N() && Fits(c.checks, c.N(), b)
    requires NoneWrong(llrs, word) && Lawful(c.checks, word) && |c.checks| > 0
    requires Conserved(EdgeVars(c.checks, |c.checks|), llrs, word, b)
    ensures RightWhereKnown(llrs, word, DecodeFrom(c, b, iters).0)
    ensures DecodeFrom(c, b, iters).1 == SatisfiesChecks(c, DecodeFrom(c, b, iters).0)
    decreases iters
  {
    hide Conserved, SweepTo, SatisfiesChecks, Hard, RightWhereKnown, NoneWrong;
    var edges := EdgeVars(c.checks, |c.checks|);
    assert |edges| > 0 by { OffsetMonotone(c.checks, 1, |c.checks|); }
    HardRight(edges, llrs, word, b);
    if iters > 0 {
      var next := SweepTo(c.checks, c.N(), b, |c.checks|);
      SweepConserves(c.checks, llrs, word, b, |c.checks|);
      HardRight(edges, llrs, word, next);
      DecodeFromRight(c, llrs, word, next, iters - 1);
    }
  }

  lemma {:induction false} SilentMessages(edges: seq<nat>, msgs: seq<real>, v: nat, n: nat)
    requires n <= |edges| == |msgs| && forall e | 0 <= e < |msgs| :: msgs[e] == 0.0
    ensures Received(edges, msgs, v, n) == 0.0
  {
    if n > 0 {
      SilentMessages(edges, msgs, v, n - 1);
    }
  }

  lemma {:induction false} CodewordLawful(c: Code, word: seq<Bit>)
    requires c.Valid() && |word| == c.N() && SatisfiesChecks(c, word)
    requires forall k | 0 <= k < |c.checks| :: |c.checks[k]| >= 2
    ensures Lawful(c.checks, word)
  {
    hide ParityOf, SatisfiesChecks;
    ChecksMeanRows(c, word);
    forall k | 0 <= k < |c.checks|
      ensures (forall i | 0 <= i < |c.checks[k]| :: c.checks[k][i] < |word|)
      ensures (forall i, j | 0 <= i < j < |c.checks[k]| :: c.checks[k][i] != c.checks[k][j])
    {
      CheckInRange(c, k);
    }
  }

  /** What decoding toward `word` may return: bits that are right at each position with
      evidence, a flag that is the syndrome of the bits, and the codeword itself when every
      information bit has evidence and the flag is set. */
  ghost predicate SoundOutcome(c: Code, llrs: seq<real>, word: seq<Bit>, bits: seq<Bit>, ok: bool)
    requires c.Shaped() && |llrs| == |word| == c.N()
  {
    && RightWhereKnown(llrs, word, bits)
    && (ok <==> SatisfiesChecks(c, bits))
    && (ok && DualDiagonal(c) && EvidenceForInfo(c, llrs) ==> bits == word)
  }

  ghost predicate EvidenceForInfo(c: Code, llrs: seq<real>)
    requires c.Shaped()
  {
    forall v | 0 <= v < c.K() && v < |llrs| :: llrs[v] != 0.0
  }

  ghost predicate DegreeTwo(c: Code) {
    forall k | 0 <= k < |c.checks| :: |c.checks[k]| >= 2
  }

  lemma {:induction false} InitialConserved(c: Code, llrs: seq<real>, word: seq<Bit>)
    requires c.Valid() && |llrs| == c.N()
    ensures Conserved(EdgeVars(c.checks, |c.checks|), llrs, word, Initial(c.checks, llrs))
  {
    var b := Initial(c.checks, llrs);
    var edges := EdgeVars(c.checks, |c.checks|);
    forall v | 0 <= v < |llrs|
      ensures Received(edges, b.msgs, v, |edges|) == 0.0
    {
      SilentMessages(edges, b.msgs, v, |edges|);
    }
  }

  lemma {:induction false} InfoInside(c: Code)
    requires c.Shaped()
    ensures c.K() <= c.N() && c.M() > 0
  {
    assert c.N() == c.K() + c.M();
  }

  lemma {:induction false} DecisionUnique(c: Code, llrs: seq<real>, word: seq<Bit>, bits: seq<Bit>)
    requires c.Shaped() && DualDiagonal(c) && |llrs| == |word| == c.N()
    requires SatisfiesChecks(c, word) && SatisfiesChecks(c, bits)
    requires RightWhereKnown(llrs, word, bits) && EvidenceForInfo(c, llrs)
    ensures bits == word
  {
    hide SatisfiesChecks, DualDiagonal;
    InfoInside(c);
    CodewordUnique(c, word[..c.K()], bits, word);
  }

  /** Min-sum soundness: if no received LLR contradicts the codeword `word`, the decoder's result
      is sound for every iteration limit. */
  lemma {:induction false} DecodeSound(c: Code, llrs: seq<real>, word: seq<Bit>, maxIter: nat)
    requires c.Valid() && |llrs| == |word| == c.N() && DegreeTwo(c)
    requires SatisfiesChecks(c, word) && NoneWrong(llrs, word)
    ensures SoundOutcome(c, llrs, word, Decoded(c, llrs, maxIter).0, Decoded(c, llrs, maxIter).1)
  {
    hide DecodeFrom, SatisfiesChecks, DualDiagonal, Lawful, Conserved, EdgeVars, NoneWrong, EvidenceForInfo, RightWhereKnown;
    InitialFits(c, llrs);
    CodewordLawful(c, word);
    InitialConserved(c, llrs, word);
    InfoInside(c);
    DecodeFromRight(c, llrs, word, Initial(c.checks, llrs), maxIter);
    var (bits, ok) := Decoded(c, llrs, maxIter);
    if ok && DualDiagonal(c) && EvidenceForInfo(c, llrs) {
      DecisionUnique(c, llrs, word, bits);
    }
  }
}
