/** Layered normalised min-sum decoding (crates/s2g-phy/src/ldpc.rs), over exact reals:
    the loops over mutable arrays and the state they compute check by check. */
module LdpcDecoder {
  import opened Params
  import opened LdpcCode

  const ALPHA: real := 0.8

  /** A magnitude; `Infinite` is the floating-point infinity a scan starts from. */
  datatype Mag = Finite(v: real) | Infinite
  {
    predicate Exceeds(a: real) {
      Infinite? || a < v
    }
  }

  function Abs(x: real): (a: real)
    ensures a >= 0.0
  {
    if x < 0.0 then -x else x
  }

  /** Posterior LLRs and check-to-variable messages, flat in adjacency order. */
  datatype Beliefs = Beliefs(post: seq<real>, msgs: seq<real>)

  // ---- One check ----

  /** Two smallest magnitudes, the index of the smallest, and the parity of the negative entries. */
  datatype Scan = Scan(min1: Mag, min2: Mag, minIdx: nat, neg: bool)

  function ScanNext(s: Scan, i: nat, q: real): Scan {
    var a := Abs(q);
    var t := if s.min1.Exceeds(a) then Scan(Finite(a), s.min1, i, s.neg)
             else if s.min2.Exceeds(a) then s.(min2 := Finite(a)) else s;
    if q < 0.0 then t.(neg := !t.neg) else t
  }

  function ScanTo(q: seq<real>, n: nat): Scan
    requires n <= |q|
  {
    if n == 0 then Scan(Infinite, Infinite, 0, false) else ScanNext(ScanTo(q, n - 1), n - 1, q[n - 1])
  }

  /** New message to variable `i`: sign from the other entries, magnitude their minimum. A check
      of two or more variables leaves both minima finite. */
  function Message(s: Scan, i: nat, q: real): real {
    var mag := if i == s.minIdx then s.min2 else s.min1;
    var size := if mag.Finite? then ALPHA * mag.v else 0.0;
    if (q < 0.0) != s.neg then -size else size
  }

  /** Variable-to-check values of a check: posterior less the check's own last message. */
  function Extrinsic(b: Beliefs, vars: seq<nat>, base: nat): (q: seq<real>)
    requires base + |vars| <= |b.msgs|
    requires forall i | 0 <= i < |vars| :: vars[i] < |b.post|
    ensures |q| == |vars|
  {
    seq(|vars|, i requires 0 <= i < |vars| => b.post[vars[i]] - b.msgs[base + i])
  }

  /** Write back the first `n` new messages and posteriors of a check. */
  function WriteTo(b: Beliefs, vars: seq<nat>, base: nat, q: seq<real>, n: nat): (r: Beliefs)
    requires n <= |vars| == |q| && base + |vars| <= |b.msgs|
    requires forall i | 0 <= i < |vars| :: vars[i] < |b.post|
    ensures |r.post| == |b.post| && |r.msgs| == |b.msgs|
  {
    if n == 0 then b
    else
      var p := WriteTo(b, vars, base, q, n - 1);
      var m := Message(ScanTo(q, |q|), n - 1, q[n - 1]);
      Beliefs(p.post[vars[n - 1] := q[n - 1] + m], p.msgs[base + n - 1 := m])
  }

  function UpdateCheck(b: Beliefs, vars: seq<nat>, base: nat): (r: Beliefs)
    requires base + |vars| <= |b.msgs|
    requires forall i | 0 <= i < |vars| :: vars[i] < |b.post|
    ensures |r.post| == |b.post| && |r.msgs| == |b.msgs|
  {
    WriteTo(b, vars, base, Extrinsic(b, vars, base), |vars|)
  }

  // ---- A sweep over all checks ----

  /** Where the messages of check `c` start. */
  function Offset(checks: seq<seq<nat>>, c: nat): nat
    requires c <= |checks|
  {
    if c == 0 then 0 else Offset(checks, c - 1) + |checks[c - 1]|
  }

  lemma {:induction false} OffsetMonotone(checks: seq<seq<nat>>, c: nat, d: nat)
    requires c <= d <= |checks|
    ensures Offset(checks, c) <= Offset(checks, d)
  {
    if c < d {
      OffsetMonotone(checks, c, d - 1);
    }
  }

  /** Beliefs over `n` variables whose messages match the checks. */
  ghost predicate Fits(checks: seq<seq<nat>>, n: nat, b: Beliefs) {
    && |b.post| == n && |b.msgs| == Offset(checks, |checks|)
    && forall c, i | 0 <= c < |checks| && 0 <= i < |checks[c]| :: checks[c][i] < n
  }

  ghost function SweepTo(checks: seq<seq<nat>>, n: nat, b: Beliefs, c: nat): (r: Beliefs)
    requires Fits(checks, n, b) && c <= |checks|
    ensures Fits(checks, n, r)
  {
    if c == 0 then b
    else
      var p := SweepTo(checks, n, b, c - 1);
      OffsetMonotone(checks, c, |checks|);
      UpdateCheck(p, checks[c - 1], Offset(checks, c - 1))
  }

  function Hard(post: seq<real>): (bits: seq<Bit>)
    ensures |bits| == |post|
  {
    seq(|post|, v requires 0 <= v < |post| => post[v] < 0.0)
  }

  /** Sweep until the hard decision is a codeword or the iterations run out. */
  ghost function DecodeFrom(c: Code, b: Beliefs, iters: nat): (r: (seq<Bit>, bool))
    requires c.Valid() && Fits(c.checks, c.N(), b)
    ensures |r.0| == c.N()
    decreases iters
  {
    if iters == 0 then (Hard(b.post), SatisfiesChecks(c, Hard(b.post)))
    else
      var next := SweepTo(c.checks, c.N(), b, |c.checks|);
      if SatisfiesChecks(c, Hard(next.post)) then (Hard(next.post), true)
      else DecodeFrom(c, next, iters - 1)
  }

  function Initial(checks: seq<seq<nat>>, llrs: seq<real>): Beliefs {
    Beliefs(llrs, seq(Offset(checks, |checks|), _ => 0.0))
  }

  lemma {:induction false} InitialFits(c: Code, llrs: seq<real>)
    requires c.Valid() && |llrs| == c.N()
    ensures Fits(c.checks, c.N(), Initial(c.checks, llrs))
  {
    forall k, i | 0 <= k < |c.checks| && 0 <= i < |c.checks[k]|
      ensures c.checks[k][i] < c.N()
    {
      CheckInRange(c, k);
    }
  }

  ghost function Decoded(c: Code, llrs: seq<real>, maxIter: nat): (r: (seq<Bit>, bool))
    requires c.Valid() && |llrs| == c.N()
    ensures |r.0| == c.N()
  {
    InitialFits(c, llrs);
    DecodeFrom(c, Initial(c.checks, llrs), maxIter)
  }

  // ---- The decoder ----

  method Decode(c: Code, llrs: seq<real>, maxIter: nat) returns (bits: seq<Bit>, ok: bool)
    requires c.Valid() && |llrs| == c.N()
    ensures (bits, ok) == Decoded(c, llrs, maxIter)
  {
    hide SweepTo, SatisfiesChecks, Fits;
    InitialFits(c, llrs);
    var post := new real[|llrs|](v requires 0 <= v < |llrs| => llrs[v]);
    var offsets := Offsets(c.checks);
    var msgs := new real[offsets[|c.checks|]](_ => 0.0);
    ghost var b := Initial(c.checks, llrs);
    assert post[..] == b.post && msgs[..] == b.msgs;
    for it := 0 to maxIter
      invariant Fits(c.checks, c.N(), b) && post[..] == b.post && msgs[..] == b.msgs
      invariant Decoded(c, llrs, maxIter) == DecodeFrom(c, b, maxIter - it)
    {
      Sweep(c, offsets, post, msgs);
      b := SweepTo(c.checks, c.N(), b, |c.checks|);
      bits := HardDecision(post);
      ok := IsCodeword(c, bits);
      if ok {
        return;
      }
    }
    bits := HardDecision(post);
    ok := IsCodeword(c, bits);
  }

  method Offsets(checks: seq<seq<nat>>) returns (offsets: seq<nat>)
    ensures |offsets| == |checks| + 1
    ensures forall c | 0 <= c <= |checks| :: offsets[c] == Offset(checks, c)
  {
    offsets := [];
    var acc := 0;
    for c := 0 to |checks|
      invariant acc == Offset(checks, c)
      invariant |offsets| == c && forall k | 0 <= k < c :: offsets[k] == Offset(checks, k)
    {
      offsets := offsets + [acc];
      acc := acc + |checks[c]|;
    }
    offsets := offsets + [acc];
  }

  method HardDecision(post: array<real>) returns (bits: seq<Bit>)
    ensures bits == Hard(post[..])
  {
    bits := seq(post.Length, v requires 0 <= v < post.Length reads post => post[v] < 0.0);
  }

  /** One iteration: every check in turn updates the shared posteriors. */
  method Sweep(c: Code, offsets: seq<nat>, post: array<real>, msgs: array<real>)
    requires c.Valid() && post != msgs && Fits(c.checks, c.N(), Beliefs(post[..], msgs[..]))
    requires |offsets| == |c.checks| + 1 && forall k | 0 <= k <= |c.checks| :: offsets[k] == Offset(c.checks, k)
    modifies post, msgs
    ensures Beliefs(post[..], msgs[..]) == SweepTo(c.checks, c.N(), old(Beliefs(post[..], msgs[..])), |c.checks|)
  {
    hide UpdateCheck;
    ghost var b := Beliefs(post[..], msgs[..]);
    for k := 0 to |c.checks|
      invariant Beliefs(post[..], msgs[..]) == SweepTo(c.checks, c.N(), b, k)
    {
      CheckInRange(c, k);
      OffsetMonotone(c.checks, k + 1, |c.checks|);
      UpdateOne(c.checks[k], offsets[k], post, msgs);
    }
  }

  /** Extrinsic values of one check, their two least magnitudes and sign. */
  method ScanCheck(vars: seq<nat>, base: nat, post: array<real>, msgs: array<real>) returns (q: seq<real>, scan: Scan)
    requires base + |vars| <= msgs.Length
    requires forall i | 0 <= i < |vars| :: vars[i] < post.Length
    ensures q == Extrinsic(Beliefs(post[..], msgs[..]), vars, base) && scan == ScanTo(q, |vars|)
  {
    hide Message, ScanTo;
    ghost var ext := Extrinsic(Beliefs(post[..], msgs[..]), vars, base);
    q := [];
    var min1, min2, neg := Infinite, Infinite, false;
    var minIdx: nat := 0;
    ScanStart(ext);
    for i := 0 to |vars|
      invariant |q| == i && forall k | 0 <= k < i :: q[k] == ext[k]
      invariant ScanTo(ext, i) == Scan(min1, min2, minIdx, neg)
    {
      var qi := post[vars[i]] - msgs[base + i];
      q := q + [qi];
      ScanStep(ext, i);
      var a := Abs(qi);
      if min1.Exceeds(a) {
        min2 := min1;
        min1 := Finite(a);
        minIdx := i;
      } else if min2.Exceeds(a) {
        min2 := Finite(a);
      }
      if qi < 0.0 {
        neg := !neg;
      }
    }
    assert q == ext;
    scan := Scan(min1, min2, minIdx, neg);
  }

  /** The two inner loops over the variables of one check. */
  method UpdateOne(vars: seq<nat>, base: nat, post: array<real>, msgs: array<real>)
    requires post != msgs && base + |vars| <= msgs.Length
    requires forall i | 0 <= i < |vars| :: vars[i] < post.Length
    modifies post, msgs
    ensures Beliefs(post[..], msgs[..]) == UpdateCheck(old(Beliefs(post[..], msgs[..])), vars, base)
  {
    hide Message, ScanTo;
    ghost var b := Beliefs(post[..], msgs[..]);
    var q, scan := ScanCheck(vars, base, post, msgs);
    for i := 0 to |vars|
      invariant WriteTo(b, vars, base, q, i) == Beliefs(post[..], msgs[..])
    {
      var m := Message(scan, i, q[i]);
      msgs[base + i] := m;
      post[vars[i]] := q[i] + m;
    }
  }

  lemma {:induction false} ScanStart(q: seq<real>)
    ensures ScanTo(q, 0) == Scan(Infinite, Infinite, 0, false)
  {
  }

  lemma {:induction false} ScanStep(q: seq<real>, i: nat)
    requires i < |q|
    ensures ScanTo(q, i + 1) == ScanNext(ScanTo(q, i), i, q[i])
  {
  }
}
