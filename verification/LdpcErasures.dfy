/** Erasure decoding by min-sum: what iterated peeling of the parity checks recovers, the decoder
    recovers, in the same number of sweeps. */
module LdpcErasures {
  import opened Params
  import opened Llr
  import opened LdpcCode
  import opened LdpcDecoder
  import opened LdpcSoundness

  // ---- Peeling ----

  /** A check with exactly one erased variable determines it. */
  function PeelCheck(check: seq<nat>, erased: set<nat>): set<nat> {
    var left := set v | v in check && v in erased;
    if |left| == 1 then erased - left else erased
  }

  /** What is still erased after the first `c` checks, taken in order. */
  function PeelTo(checks: seq<seq<nat>>, erased: set<nat>, c: nat): set<nat>
    requires c <= |checks|
  {
    if c == 0 then erased else PeelCheck(checks[c - 1], PeelTo(checks, erased, c - 1))
  }

  function Peel(checks: seq<seq<nat>>, erased: set<nat>, sweeps: nat): set<nat>
    decreases sweeps
  {
    if sweeps == 0 then erased else Peel(checks, PeelTo(checks, erased, |checks|), sweeps - 1)
  }

  function Erased(llrs: seq<real>): set<nat> {
    set v: nat | v < |llrs| && llrs[v] == 0.0
  }

  // ---- The order in which variables are recovered ----

  /** Check `check` recovers its `i`-th variable. */
  datatype Step = Step(check: nat, i: nat)

  ghost predicate Inside(checks: seq<seq<nat>>, s: Step) {
    s.check < |checks| && s.i < |checks[s.check]|
  }

  ghost function Left(checks: seq<seq<nat>>, erased: set<nat>, steps: seq<Step>): set<nat>
    requires forall k | 0 <= k < |steps| :: Inside(checks, steps[k])
  {
    if |steps| == 0 then erased
    else
      var s := steps[|steps| - 1];
      assert Inside(checks, s);
      Left(checks, erased, steps[..|steps| - 1]) - {checks[s.check][s.i]}
  }

  /** Of the variables of its check, a step recovers the only one then erased. */
  ghost predicate Recovers(checks: seq<seq<nat>>, erased: set<nat>, s: Step)
    requires Inside(checks, s)
  {
    checks[s.check][s.i] in erased && forall j | 0 <= j < |checks[s.check]| && j != s.i :: checks[s.check][j] !in erased
  }

  ghost predicate Ordered(checks: seq<seq<nat>>, erased: set<nat>, steps: seq<Step>) {
    && (forall k | 0 <= k < |steps| :: Inside(checks, steps[k]))
    && (forall k | 0 <= k < |steps| :: Recovers(checks, Left(checks, erased, steps[..k]), steps[k]))
  }

  lemma {:induction false} OrderedPrefix(checks: seq<seq<nat>>, erased: set<nat>, steps: seq<Step>, n: nat)
    requires Ordered(checks, erased, steps) && n <= |steps|
    ensures Ordered(checks, erased, steps[..n])
  {
    hide Recovers;
    forall k | 0 <= k < n
      ensures Recovers(checks, Left(checks, erased, steps[..n][..k]), steps[..n][k])
    {
      assert steps[..n][..k] == steps[..k];
    }
  }

  /** What is erased and not left was recovered by some step, and what is left by none. */
  lemma {:induction false} LeftIs(checks: seq<seq<nat>>, erased: set<nat>, steps: seq<Step>, v: nat)
    requires forall k | 0 <= k < |steps| :: Inside(checks, steps[k])
    ensures v in Left(checks, erased, steps)
            <==> v in erased && forall k | 0 <= k < |steps| :: checks[steps[k].check][steps[k].i] != v
  {
    if |steps| > 0 {
      var n := |steps| - 1;
      LeftIs(checks, erased, steps[..n], v);
      assert forall k | 0 <= k < n :: steps[..n][k] == steps[k];
    }
  }

  /** No check recovers two variables. */
  lemma {:induction false} ChecksDiffer(checks: seq<seq<nat>>, erased: set<nat>, steps: seq<Step>, j: nat, k: nat)
    requires Ordered(checks, erased, steps) && j < k < |steps|
    ensures steps[j].check != steps[k].check
    ensures checks[steps[j].check][steps[j].i] != checks[steps[k].check][steps[k].i]
  {
    hide Left;
    var (s, t) := (steps[j], steps[k]);
    var v := checks[t.check][t.i];
    assert Recovers(checks, Left(checks, erased, steps[..j]), s) && Recovers(checks, Left(checks, erased, steps[..k]), t);
    LeftIs(checks, erased, steps[..k], v);
    LeftIs(checks, erased, steps[..j], v);
    assert steps[..k][j] == s;
    assert forall l | 0 <= l < j :: steps[..j][l] == steps[..k][l];
  }

  // ---- Messages that carry a recovered bit ----

  /** The message of every step is evidence for the word. */
  ghost predicate Carried(checks: seq<seq<nat>>, word: seq<Bit>, b: Beliefs, steps: seq<Step>)
    requires forall k | 0 <= k < |steps| :: Inside(checks, steps[k])
  {
    forall k | 0 <= k < |steps| ::
      assert Inside(checks, steps[k]);
      var e := Offset(checks, steps[k].check) + steps[k].i;
      e < |b.msgs| && Toward(b.msgs[e], BitAt(word, checks[steps[k].check][steps[k].i])) > 0.0
  }

  /** If all other values are evidence for the word, so is the message. */
  lemma {:induction false} MessageStrict(q: seq<real>, check: seq<nat>, word: seq<Bit>, i: nat)
    requires |q| == |check| >= 2 && i < |q|
    requires !ParityOf(check, word, |check|)
    requires forall j | 0 <= j < |q| && j != i :: Toward(q[j], BitAt(word, check[j])) > 0.0
    ensures Toward(Message(ScanTo(q, |q|), i, q[i]), BitAt(word, check[i])) > 0.0
  {
    hide ScanTo, ParityOf, NegParity, OthersNegative, BitAt;
    MessageIs(q, i);
    var a :| LeastOther(q, i, a)
             && Message(ScanTo(q, |q|), i, q[i]) == if OthersNegative(q, i, |q|) then -(0.8 * a) else 0.8 * a;
    var j :| 0 <= j < |q| && j != i && a == Abs(q[j]);
    assert a > 0.0;
    ParityExcept(q, check, word, i, |q|);
    ParityOfOthers(q, i, |q|);
  }

  /** Messages toward the word leave, without any two of them, a sum toward the word. */
  lemma {:induction false} ReceivedWithoutTwo(edges: seq<nat>, msgs: seq<real>, word: seq<Bit>, e: nat, f: nat, v: nat, n: nat)
    requires n <= |edges| == |msgs| && e < |msgs| && f < |msgs| && e != f
    requires forall k | 0 <= k < |msgs| :: Toward(msgs[k], BitAt(word, edges[k])) >= 0.0
    ensures Toward(Received(edges, msgs, v, n)
                   - (if e < n && edges[e] == v then msgs[e] else 0.0) - (if f < n && edges[f] == v then msgs[f] else 0.0), BitAt(word, v)) >= 0.0
  {
    hide BitAt;
    if n > 0 {
      ReceivedWithoutTwo(edges, msgs, word, e, f, v, n - 1);
      assert Toward(msgs[n - 1], BitAt(word, edges[n - 1])) >= 0.0;
    }
  }

  /** Evidence in favour of the word, and how messages are laid out. */
  ghost predicate State(checks: seq<seq<nat>>, llrs: seq<real>, word: seq<Bit>, b: Beliefs) {
    && NoneWrong(llrs, word) && Lawful(checks, word) && Fits(checks, |llrs|, b)
    && Conserved(EdgeVars(checks, |checks|), llrs, word, b)
  }

  /** A variable that was never erased, or is recovered by another check, gives check `c` evidence. */
  lemma {:induction false} ExtrinsicStrict(checks: seq<seq<nat>>, llrs: seq<real>, word: seq<Bit>, b: Beliefs, steps: seq<Step>, c: nat, j: nat)
    requires State(checks, llrs, word, b) && Ordered(checks, Erased(llrs), steps) && Carried(checks, word, b, steps)
    requires c < |checks| && j < |checks[c]| && checks[c][j] !in Left(checks, Erased(llrs), steps)
    requires forall k | 0 <= k < |steps| :: steps[k].check != c
    ensures Offset(checks, c) + j < |b.msgs|
    ensures Toward(b.post[checks[c][j]] - b.msgs[Offset(checks, c) + j], BitAt(word, checks[c][j])) > 0.0
  {
    hide Received, EdgeVars, Left, Offset, ParityOf, BitAt;
    var (edges, v, e) := (EdgeVars(checks, |checks|), checks[c][j], Offset(checks, c) + j);
    EdgeOf(checks, c, j, |checks|);
    ReceivedToward(edges, b.msgs, word, e, v, |edges|);
    LeftIs(checks, Erased(llrs), steps, v);
    assert BitAt(word, v) == word[v] by { BitIs(word, v); }
    if v in Erased(llrs) {
      var k :| 0 <= k < |steps| && checks[steps[k].check][steps[k].i] == v;
      var f := Offset(checks, steps[k].check) + steps[k].i;
      EdgeOf(checks, steps[k].check, steps[k].i, |checks|);
      EdgesApart(checks, c, j, steps[k].check, steps[k].i);
      ReceivedWithoutTwo(edges, b.msgs, word, e, f, v, |edges|);
    }
  }

  lemma {:induction false} BitIs(word: seq<Bit>, v: nat)
    requires v < |word|
    ensures BitAt(word, v) == word[v]
  {
  }

  lemma {:induction false} EdgesApart(checks: seq<seq<nat>>, c: nat, i: nat, d: nat, j: nat)
    requires c < |checks| && d < |checks| && c != d && i < |checks[c]| && j < |checks[d]|
    ensures Offset(checks, c) + i != Offset(checks, d) + j
  {
    if c < d {
      OffsetMonotone(checks, c + 1, d);
    } else {
      OffsetMonotone(checks, d + 1, c);
    }
  }

  /** A variable that is not left has a posterior in favour of the word. */
  lemma {:induction false} PostStrict(checks: seq<seq<nat>>, llrs: seq<real>, word: seq<Bit>, b: Beliefs, steps: seq<Step>, v: nat)
    requires State(checks, llrs, word, b) && Ordered(checks, Erased(llrs), steps) && Carried(checks, word, b, steps)
    requires v < |llrs| && v !in Left(checks, Erased(llrs), steps) && |EdgeVars(checks, |checks|)| > 0
    ensures Toward(b.post[v], word[v]) > 0.0
  {
    hide Received, EdgeVars, Left, Offset, ParityOf, BitAt;
    var edges := EdgeVars(checks, |checks|);
    ReceivedToward(edges, b.msgs, word, 0, v, |edges|);
    LeftIs(checks, Erased(llrs), steps, v);
    BitIs(word, v);
    if v in Erased(llrs) {
      var k :| 0 <= k < |steps| && checks[steps[k].check][steps[k].i] == v;
      EdgeOf(checks, steps[k].check, steps[k].i, |checks|);
      ReceivedToward(edges, b.msgs, word, Offset(checks, steps[k].check) + steps[k].i, v, |edges|);
    }
  }

  // ---- One check ----

  /** What a check writes: its own messages, all of them and no others. */
  lemma {:induction false} WriteSets(b: Beliefs, vars: seq<nat>, base: nat, q: seq<real>, n: nat, e: nat)
    requires n <= |vars| == |q| && base + |vars| <= |b.msgs| && e < |b.msgs|
    requires forall k | 0 <= k < |vars| :: vars[k] < |b.post|
    ensures WriteTo(b, vars, base, q, n).msgs[e]
            == if base <= e < base + n then Message(ScanTo(q, |q|), e - base, q[e - base]) else b.msgs[e]
  {
    hide Message, ScanTo;
    if n > 0 {
      WriteSets(b, vars, base, q, n - 1, e);
    }
  }

  /** Updating a check keeps what steps carry, its own step included. */
  lemma {:induction false} StepCarried(checks: seq<seq<nat>>, llrs: seq<real>, word: seq<Bit>, b: Beliefs, steps: seq<Step>, c: nat, k: nat)
    requires State(checks, llrs, word, b) && Ordered(checks, Erased(llrs), steps) && c < |checks| && k < |steps|
    requires Offset(checks, c) + |checks[c]| <= |b.msgs| && (forall i | 0 <= i < |checks[c]| :: checks[c][i] < |b.post|)
    requires Carried(checks, word, b, steps[..k]) && (steps[k].check != c ==> Carried(checks, word, b, steps[..k + 1]))
    ensures Carried(checks, word, UpdateCheck(b, checks[c], Offset(checks, c)), [steps[k]])
  {
    hide Left, Offset, Message, ScanTo, ParityOf, BitAt, WriteTo, Conserved, EdgeVars;
    var (check, base, s) := (checks[c], Offset(checks, c), steps[k]);
    var q := Extrinsic(b, check, base);
    var e := Offset(checks, s.check) + s.i;
    assert Inside(checks, s);
    OffsetMonotone(checks, s.check + 1, |checks|);
    NextOffset(checks, s.check);
    WriteSets(b, check, base, q, |check|, e);
    if s.check == c {
      OrderedPrefix(checks, Erased(llrs), steps, k);
      assert Recovers(checks, Left(checks, Erased(llrs), steps[..k]), s);
      forall j | 0 <= j < |q| && j != s.i
        ensures Toward(q[j], BitAt(word, check[j])) > 0.0
      {
        forall l | 0 <= l < k
          ensures steps[..k][l].check != c
        {
          ChecksDiffer(checks, Erased(llrs), steps, l, k);
        }
        ExtrinsicStrict(checks, llrs, word, b, steps[..k], c, j);
      }
      MessageStrict(q, check, word, s.i);
    } else {
      Outside(checks, c, s.check, s.i);
      assert steps[..k + 1][k] == s;
    }
  }

  lemma {:induction false} NextOffset(checks: seq<seq<nat>>, c: nat)
    requires c < |checks|
    ensures Offset(checks, c + 1) == Offset(checks, c) + |checks[c]|
  {
  }

  lemma {:induction false} Outside(checks: seq<seq<nat>>, c: nat, d: nat, i: nat)
    requires c < |checks| && d < |checks| && c != d && i < |checks[d]|
    ensures !(Offset(checks, c) <= Offset(checks, d) + i < Offset(checks, c) + |checks[c]|)
  {
    if c < d {
      OffsetMonotone(checks, c + 1, d);
    } else {
      OffsetMonotone(checks, d + 1, c);
    }
  }

  lemma {:induction false} UpdateCarries(checks: seq<seq<nat>>, llrs: seq<real>, word: seq<Bit>, b: Beliefs, steps: seq<Step>, c: nat, n: nat)
    requires State(checks, llrs, word, b) && Ordered(checks, Erased(llrs), steps) && c < |checks| && n <= |steps|
    requires Offset(checks, c) + |checks[c]| <= |b.msgs| && (forall i | 0 <= i < |checks[c]| :: checks[c][i] < |b.post|)
    requires Carried(checks, word, b, steps[..n]) && (n < |steps| ==> n == |steps| - 1 && steps[n].check == c)
    ensures Carried(checks, word, UpdateCheck(b, checks[c], Offset(checks, c)), steps)
  {
    hide State, Left, Offset, UpdateCheck, Recovers, BitAt, Toward;
    var r := UpdateCheck(b, checks[c], Offset(checks, c));
    forall k | 0 <= k < |steps|
      ensures var e := Offset(checks, steps[k].check) + steps[k].i;
              e < |r.msgs| && Toward(r.msgs[e], BitAt(word, checks[steps[k].check][steps[k].i])) > 0.0
    {
      CarriedPrefix(checks, word, b, steps, n, k);
      if k < n {
        CarriedPrefix(checks, word, b, steps, n, k + 1);
      }
      StepCarried(checks, llrs, word, b, steps, c, k);
      assert [steps[k]][0] == steps[k];
    }
  }

  lemma {:induction false} CarriedPrefix(checks: seq<seq<nat>>, word: seq<Bit>, b: Beliefs, steps: seq<Step>, n: nat, k: nat)
    requires (forall l | 0 <= l < |steps| :: Inside(checks, steps[l])) && k <= n <= |steps| && Carried(checks, word, b, steps[..n])
    ensures Carried(checks, word, b, steps[..k])
  {
    hide Offset, BitAt, Toward;
    assert forall l | 0 <= l < k :: steps[..k][l] == steps[..n][l];
  }

  // ---- Sweeps ----

  /** If a check peels a variable, that is a step. */
  lemma {:induction false} PeelStep(checks: seq<seq<nat>>, erased: set<nat>, steps: seq<Step>, c: nat) returns (more: seq<Step>)
    requires Ordered(checks, erased, steps) && c < |checks|
    requires forall i, j | 0 <= i < j < |checks[c]| :: checks[c][i] != checks[c][j]
    ensures Ordered(checks, erased, more) && Left(checks, erased, more) == PeelCheck(checks[c], Left(checks, erased, steps))
    ensures more == steps || (|more| == |steps| + 1 && more[..|steps|] == steps && more[|steps|].check == c)
  {
    var check := checks[c];
    var now := Left(checks, erased, steps);
    var left := set v | v in check && v in now;
    more := steps;
    if |left| == 1 {
      var v :| v in left;
      Singleton(left, v);
      var i :| 0 <= i < |check| && check[i] == v;
      forall j | 0 <= j < |check| && j != i
        ensures check[j] !in now
      {
        assert check[j] != v;
        assert check[j] !in left;
      }
      var s := Step(c, i);
      more := steps + [s];
      assert more[..|steps|] == steps;
      forall k | 0 <= k < |more|
        ensures Inside(checks, more[k]) && Recovers(checks, Left(checks, erased, more[..k]), more[k])
      {
        if k < |steps| {
          assert more[..k] == steps[..k];
        }
      }
    }
  }

  lemma {:induction false} Singleton(s: set<nat>, v: nat)
    requires |s| == 1 && v in s
    ensures s == {v}
  {
    assert |s - {v}| == 0;
  }

  /** A sweep carries what peeling the checks recovers. */
  lemma {:induction false} SweepPeels(checks: seq<seq<nat>>, llrs: seq<real>, word: seq<Bit>, b: Beliefs, steps: seq<Step>, c: nat) returns (more: seq<Step>)
    requires State(checks, llrs, word, b) && Ordered(checks, Erased(llrs), steps) && Carried(checks, word, b, steps) && c <= |checks|
    ensures Ordered(checks, Erased(llrs), more)
    ensures Left(checks, Erased(llrs), more) == PeelTo(checks, Left(checks, Erased(llrs), steps), c)
    ensures State(checks, llrs, word, SweepTo(checks, |llrs|, b, c)) && Carried(checks, word, SweepTo(checks, |llrs|, b, c), more)
  {
    hide Left, Conserved, EdgeVars, Recovers, PeelCheck, UpdateCheck, BitAt, Toward, ParityOf, Carried, NoneWrong, Erased;
    SweepConserves(checks, llrs, word, b, c);
    more := steps;
    if c > 0 {
      var before := SweepPeels(checks, llrs, word, b, steps, c - 1);
      var p := SweepTo(checks, |llrs|, b, c - 1);
      OffsetMonotone(checks, c, |checks|);
      more := PeelStep(checks, Erased(llrs), before, c - 1);
      assert before[..|before|] == before;
      UpdateCarries(checks, llrs, word, p, more, c - 1, |before|);
    }
  }

  // ---- The word is the only one left ----

  lemma {:induction false} ParityTells(check: seq<nat>, v: seq<Bit>, w: seq<Bit>, i: nat, n: nat)
    requires n <= |check| && i < |check| && forall j | 0 <= j < n && j != i :: BitAt(v, check[j]) == BitAt(w, check[j])
    ensures (ParityOf(check, v, n) == ParityOf(check, w, n)) == (n <= i || BitAt(v, check[i]) == BitAt(w, check[i]))
  {
    hide BitAt;
    if n > 0 {
      ParityTells(check, v, w, i, n - 1);
    }
  }

  ghost predicate AgreeOutside(v: seq<Bit>, w: seq<Bit>, erased: set<nat>) {
    |v| == |w| && forall i: nat | i < |v| && i !in erased :: v[i] == w[i]
  }

  /** Words that satisfy the checks and agree where nothing is erased agree on what is peeled. */
  lemma {:induction false} PeelAgrees(checks: seq<seq<nat>>, v: seq<Bit>, w: seq<Bit>, erased: set<nat>, c: nat)
    requires |v| == |w| && Lawful(checks, v) && Lawful(checks, w) && AgreeOutside(v, w, erased) && c <= |checks|
    ensures AgreeOutside(v, w, PeelTo(checks, erased, c))
  {
    hide ParityOf, AgreeOutside;
    if c > 0 {
      PeelAgrees(checks, v, w, erased, c - 1);
      PeelOneAgrees(checks[c - 1], v, w, PeelTo(checks, erased, c - 1));
    }
  }

  lemma {:induction false} PeelOneAgrees(check: seq<nat>, v: seq<Bit>, w: seq<Bit>, erased: set<nat>)
    requires |v| == |w| && !ParityOf(check, v, |check|) && !ParityOf(check, w, |check|) && AgreeOutside(v, w, erased)
    requires forall i | 0 <= i < |check| :: check[i] < |v|
    requires forall i, j | 0 <= i < j < |check| :: check[i] != check[j]
    ensures AgreeOutside(v, w, PeelCheck(check, erased))
  {
    hide ParityOf;
    var left := set x | x in check && x in erased;
    if |left| == 1 {
      var x :| x in left;
      Singleton(left, x);
      var i :| 0 <= i < |check| && check[i] == x;
      forall j | 0 <= j < |check| && j != i
        ensures BitAt(v, check[j]) == BitAt(w, check[j])
      {
        assert check[j] != x;
        assert check[j] !in left;
      }
      ParityTells(check, v, w, i, |check|);
    }
  }

  /** If peeling empties the erasures, at most one word fits. */
  lemma {:induction false} PeelUnique(checks: seq<seq<nat>>, v: seq<Bit>, w: seq<Bit>, erased: set<nat>, sweeps: nat)
    requires Lawful(checks, v) && Lawful(checks, w) && AgreeOutside(v, w, erased) && Peel(checks, erased, sweeps) == {}
    ensures v == w
    decreases sweeps
  {
    hide Lawful, PeelTo;
    if sweeps > 0 {
      PeelAgrees(checks, v, w, erased, |checks|);
      PeelUnique(checks, v, w, PeelTo(checks, erased, |checks|), sweeps - 1);
    }
  }

  // ---- The theorem ----

  lemma {:induction false} HardAgrees(checks: seq<seq<nat>>, llrs: seq<real>, word: seq<Bit>, b: Beliefs, steps: seq<Step>)
    requires State(checks, llrs, word, b) && Ordered(checks, Erased(llrs), steps) && Carried(checks, word, b, steps)
    requires |EdgeVars(checks, |checks|)| > 0
    ensures AgreeOutside(Hard(b.post), word, Left(checks, Erased(llrs), steps))
  {
    hide Left, EdgeVars, Recovers, Carried, Lawful, Conserved;
    forall v: nat | v < |word| && v !in Left(checks, Erased(llrs), steps)
      ensures Hard(b.post)[v] == word[v]
    {
      PostStrict(checks, llrs, word, b, steps, v);
    }
    StateSizes(checks, llrs, word, b);
  }

  lemma {:induction false} StateSizes(checks: seq<seq<nat>>, llrs: seq<real>, word: seq<Bit>, b: Beliefs)
    requires State(checks, llrs, word, b)
    ensures |b.post| == |llrs| == |word|
  {
  }

  lemma {:induction false} WordUnique(c: Code, v: seq<Bit>, w: seq<Bit>, erased: set<nat>, sweeps: nat)
    requires c.Valid() && |v| == |w| == c.N() && DegreeTwo(c) && SatisfiesChecks(c, v) && SatisfiesChecks(c, w)
    requires AgreeOutside(v, w, erased) && Peel(c.checks, erased, sweeps) == {}
    ensures v == w
  {
    hide SatisfiesChecks, Lawful, Peel, AgreeOutside;
    CodewordLawful(c, v);
    CodewordLawful(c, w);
    PeelUnique(c.checks, v, w, erased, sweeps);
  }

  lemma {:induction false} DecodeFromPeels(c: Code, llrs: seq<real>, word: seq<Bit>, b: Beliefs, steps: seq<Step>, iters: nat)
    requires c.Valid() && |llrs| == |word| == c.N() && SatisfiesChecks(c, word) && DegreeTwo(c) && |EdgeVars(c.checks, |c.checks|)| > 0
    requires Fits(c.checks, c.N(), b)
    requires State(c.checks, llrs, word, b) && Ordered(c.checks, Erased(llrs), steps) && Carried(c.checks, word, b, steps)
    requires Peel(c.checks, Left(c.checks, Erased(llrs), steps), iters) == {}
    ensures DecodeFrom(c, b, iters) == (word, true)
    decreases iters
  {
    hide Left, Ordered, Carried, State, SweepTo, SatisfiesChecks, Hard, PeelTo, EdgeVars, Erased, DegreeTwo, Fits;
    if iters == 0 {
      HardAgrees(c.checks, llrs, word, b, steps);
      assert Hard(b.post) == word;
    } else {
      OrderedInside(c.checks, Erased(llrs), steps);
      var more := SweepPeels(c.checks, llrs, word, b, steps, |c.checks|);
      OrderedInside(c.checks, Erased(llrs), more);
      var next := SweepTo(c.checks, c.N(), b, |c.checks|);
      HardAgrees(c.checks, llrs, word, next, more);
      if SatisfiesChecks(c, Hard(next.post)) {
        WordUnique(c, Hard(next.post), word, Left(c.checks, Erased(llrs), more), iters - 1);
      } else {
        DecodeFromPeels(c, llrs, word, next, more, iters - 1);
      }
    }
  }

  lemma {:induction false} OrderedInside(checks: seq<seq<nat>>, erased: set<nat>, steps: seq<Step>)
    requires Ordered(checks, erased, steps)
    ensures forall k | 0 <= k < |steps| :: Inside(checks, steps[k])
  {
  }

  lemma {:induction false} StartState(c: Code, llrs: seq<real>, word: seq<Bit>)
    requires c.Valid() && |llrs| == |word| == c.N() && DegreeTwo(c) && SatisfiesChecks(c, word) && NoneWrong(llrs, word)
    ensures State(c.checks, llrs, word, Initial(c.checks, llrs)) && |EdgeVars(c.checks, |c.checks|)| > 0
  {
    hide SatisfiesChecks, NoneWrong, EdgeVars, Conserved, Lawful;
    InitialFits(c, llrs);
    CodewordLawful(c, word);
    InitialConserved(c, llrs, word);
    InfoInside(c);
    OffsetMonotone(c.checks, 1, |c.checks|);
  }

  /** Whatever erasures the checks can peel, one unknown at a time, within `maxIter` sweeps, the
      decoder fills in: without wrong evidence it returns the codeword and reports success. */
  lemma {:induction false} DecodePeels(c: Code, llrs: seq<real>, word: seq<Bit>, maxIter: nat)
    requires c.Valid() && |llrs| == |word| == c.N() && DegreeTwo(c) && SatisfiesChecks(c, word) && NoneWrong(llrs, word)
    requires Peel(c.checks, Erased(llrs), maxIter) == {}
    ensures Decoded(c, llrs, maxIter) == (word, true)
  {
    hide DecodeFrom, SatisfiesChecks, NoneWrong, State, EdgeVars, Peel, Erased, Initial, DegreeTwo;
    InitialFits(c, llrs);
    StartState(c, llrs, word);
    DecodeFromPeels(c, llrs, word, Initial(c.checks, llrs), [], maxIter);
  }

  /** In particular a single erased position that some check covers, in one iteration or more. */
  lemma {:induction false} OneErasureDecodes(c: Code, llrs: seq<real>, word: seq<Bit>, v: nat, k: nat, maxIter: nat)
    requires c.Valid() && |llrs| == |word| == c.N() && DegreeTwo(c) && SatisfiesChecks(c, word) && NoneWrong(llrs, word)
    requires Erased(llrs) == {v} && k < |c.checks| && v in c.checks[k] && maxIter > 0
    ensures Decoded(c, llrs, maxIter) == (word, true)
  {
    hide Decoded, SatisfiesChecks, NoneWrong, Erased, DegreeTwo;
    OnePeels(c.checks, v, k, |c.checks|);
    NothingPeels(c.checks, maxIter - 1);
    DecodePeels(c, llrs, word, maxIter);
  }

  lemma {:induction false} OnePeels(checks: seq<seq<nat>>, v: nat, k: nat, c: nat)
    requires k < c <= |checks| && v in checks[k]
    ensures PeelTo(checks, {v}, c) == {}
  {
    OneLeft(checks, v, c - 1);
    if c - 1 > k {
      OnePeels(checks, v, k, c - 1);
    } else {
      var left := set x | x in checks[k] && x in PeelTo(checks, {v}, k);
      assert left <= {v};
      assert PeelTo(checks, {v}, k) == {v} ==> left == {v};
    }
  }

  /** One erasure stays or goes. */
  lemma {:induction false} OneLeft(checks: seq<seq<nat>>, v: nat, c: nat)
    requires c <= |checks|
    ensures PeelTo(checks, {v}, c) == {v} || PeelTo(checks, {v}, c) == {}
  {
    if c > 0 {
      OneLeft(checks, v, c - 1);
    }
  }

  lemma {:induction false} NothingPeels(checks: seq<seq<nat>>, sweeps: nat)
    ensures Peel(checks, {}, sweeps) == {}
  {
    if sweeps > 0 {
      NoneLeft(checks, |checks|);
      NothingPeels(checks, sweeps - 1);
    }
  }

  lemma {:induction false} NoneLeft(checks: seq<seq<nat>>, c: nat)
    requires c <= |checks|
    ensures PeelTo(checks, {}, c) == {}
  {
    if c > 0 {
      NoneLeft(checks, c - 1);
    }
  }
}
