/** What `TokenAuthNr` guarantees, proved about the model in `ClientAuthnr`. */
module AuthnrProofs {
  import opened Wrappers
  import opened Txn
  import opened ClientAuthnr

  /** Reference definition: the addresses, in input order, whose signature verified. */
  function Verified(h: Host, req: Req, v: VerifierClass, xs: seq<Entry>): seq<string> {
    if xs == [] then []
    else (if Step(h, req, v, xs[0]) == Checked(true) then [xs[0].address] else [])
         + Verified(h, req, v, xs[1..])
  }

  lemma {:induction false} VerifiedSnoc(h: Host, req: Req, v: VerifierClass, xs: seq<Entry>, x: Entry)
    ensures Verified(h, req, v, xs + [x])
         == Verified(h, req, v, xs) + (if Step(h, req, v, x) == Checked(true) then [x.address] else [])
  {
    if xs == [] {
      assert [x][1..] == [];
    } else {
      assert (xs + [x])[1..] == xs[1..] + [x];
      VerifiedSnoc(h, req, v, xs[1..], x);
    }
  }

  /** At most one address per input; one per input exactly when every input verified, and then in order. */
  lemma {:induction false} VerifiedCount(h: Host, req: Req, v: VerifierClass, xs: seq<Entry>)
    ensures |Verified(h, req, v, xs)| <= |xs|
    ensures |Verified(h, req, v, xs)| == |xs| <==> forall k :: 0 <= k < |xs| ==> Step(h, req, v, xs[k]) == Checked(true)
    ensures |Verified(h, req, v, xs)| == |xs| ==> forall k :: 0 <= k < |xs| ==> Verified(h, req, v, xs)[k] == xs[k].address
  {
    if xs != [] {
      VerifiedCount(h, req, v, xs[1..]);
      assert forall k :: 1 <= k < |xs| ==> xs[1..][k - 1] == xs[k];
      if Step(h, req, v, xs[0]) != Checked(true) {
        assert |Verified(h, req, v, xs)| < |xs|;
      }
    }
  }

  /** The loop raises nothing exactly when no input fails hard, and then records the `Verified` addresses. */
  lemma {:induction false} RunOk(h: Host, req: Req, v: VerifierClass, xs: seq<Entry>)
    ensures Run(h, req, v, xs).Ok? <==> forall k :: 0 <= k < |xs| ==> Step(h, req, v, xs[k]).Checked?
    ensures Run(h, req, v, xs).Ok? ==> Run(h, req, v, xs).value == Verified(h, req, v, xs)
  {
    if xs != [] {
      var p, x := xs[..|xs| - 1], xs[|xs| - 1];
      assert xs == p + [x];
      assert forall k :: 0 <= k < |p| ==> p[k] == xs[k];
      RunOk(h, req, v, p);
      VerifiedSnoc(h, req, v, p, x);
    }
  }

  /** Fail-fast: the first input that fails hard decides the loop's error. */
  lemma {:induction false} RunFailFast(h: Host, req: Req, v: VerifierClass, xs: seq<Entry>, j: nat)
    requires j < |xs| && Step(h, req, v, xs[j]).Fail?
    requires forall k :: 0 <= k < j ==> Step(h, req, v, xs[k]).Checked?
    ensures Run(h, req, v, xs) == Err(Step(h, req, v, xs[j]).err)
  {
    var p := xs[..|xs| - 1];
    assert forall k :: 0 <= k < |p| ==> p[k] == xs[k];
    if j == |xs| - 1 {
      RunOk(h, req, v, p);
    } else {
      RunFailFast(h, req, v, p, j);
    }
  }

  /**
   * All-or-nothing admission: `authenticate_xfer` returns exactly when every input's signature
   * verified, and then returns each input's address once, in input order (repeats included).
   */
  lemma XferAdmitted(h: Host, req: Req, v: VerifierClass)
    ensures XferSpec(h, req, v).Ok? <==>
      forall k :: 0 <= k < |req.operation.inputs| ==> Step(h, req, v, req.operation.inputs[k]) == Checked(true)
    ensures XferSpec(h, req, v).Ok? ==>
      |XferSpec(h, req, v).value| == |req.operation.inputs| &&
      forall k :: 0 <= k < |req.operation.inputs| ==> XferSpec(h, req, v).value[k] == req.operation.inputs[k].address
  {
    RunOk(h, req, v, req.operation.inputs);
    VerifiedCount(h, req, v, req.operation.inputs);
  }

  /**
   * When no input fails hard, k of n verified and k < n, the call raises
   * `InsufficientCorrectSignatures(k, n)`; k == n admits. Nothing else is possible.
   */
  lemma XferInsufficient(h: Host, req: Req, v: VerifierClass)
    requires forall k :: 0 <= k < |req.operation.inputs| ==> Step(h, req, v, req.operation.inputs[k]).Checked?
    ensures var good, n := |Verified(h, req, v, req.operation.inputs)|, |req.operation.inputs|;
      good <= n &&
      (good < n ==> XferSpec(h, req, v) == Err(InsufficientCorrectSignatures(good, n))) &&
      (good == n ==> XferSpec(h, req, v) == Ok(Verified(h, req, v, req.operation.inputs)))
  {
    RunOk(h, req, v, req.operation.inputs);
    VerifiedCount(h, req, v, req.operation.inputs);
  }

  /** The count error is raised only after every input was examined without a hard failure. */
  lemma CountErrorOnlyAfterAllInputs(h: Host, req: Req, v: VerifierClass)
    requires XferSpec(h, req, v).Err? && XferSpec(h, req, v).error.InsufficientCorrectSignatures?
    ensures forall k :: 0 <= k < |req.operation.inputs| ==> Step(h, req, v, req.operation.inputs[k]).Checked?
    ensures XferSpec(h, req, v).error.correct == |Verified(h, req, v, req.operation.inputs)|
    ensures XferSpec(h, req, v).error.correct < XferSpec(h, req, v).error.required == |req.operation.inputs|
  {
    RunOk(h, req, v, req.operation.inputs);
    VerifiedCount(h, req, v, req.operation.inputs);
  }

  /**
   * Fail-fast in input order: the first input whose signature does not decode or whose key
   * cannot be resolved (or built) decides the error, and no count error is produced.
   */
  lemma XferFailFast(h: Host, req: Req, v: VerifierClass, j: nat)
    requires j < |req.operation.inputs| && Step(h, req, v, req.operation.inputs[j]).Fail?
    requires forall k :: 0 <= k < j ==> Step(h, req, v, req.operation.inputs[k]).Checked?
    ensures XferSpec(h, req, v) == Err(Step(h, req, v, req.operation.inputs[j]).err)
    ensures !XferSpec(h, req, v).error.InsufficientCorrectSignatures?
  {
    RunFailFast(h, req, v, req.operation.inputs, j);
  }

  /** The message checked for an input does not depend on the request's other inputs. */
  lemma StepIgnoresOtherInputs(h: Host, req: Req, v: VerifierClass, xs: seq<Entry>, inp: Entry)
    ensures SigView(WithInputs(req, xs), inp) == SigView(req, inp)
    ensures Step(h, WithInputs(req, xs), v, inp) == Step(h, req, v, inp)
  {
  }

  lemma {:induction false} RunIgnoresOtherInputs(h: Host, req: Req, v: VerifierClass, ys: seq<Entry>, xs: seq<Entry>)
    ensures Run(h, WithInputs(req, ys), v, xs) == Run(h, req, v, xs)
  {
    if xs != [] {
      RunIgnoresOtherInputs(h, req, v, ys, xs[..|xs| - 1]);
      StepIgnoresOtherInputs(h, req, v, ys, xs[|xs| - 1]);
    }
  }

  /** Inputs after the first hard failure are never examined: replacing them changes nothing. */
  lemma LaterInputsIgnored(h: Host, req: Req, v: VerifierClass, j: nat, rest: seq<Entry>)
    requires j < |req.operation.inputs| && Step(h, req, v, req.operation.inputs[j]).Fail?
    requires forall k :: 0 <= k < j ==> Step(h, req, v, req.operation.inputs[k]).Checked?
    ensures XferSpec(h, WithInputs(req, req.operation.inputs[..j + 1] + rest), v) == XferSpec(h, req, v)
  {
    var xs := req.operation.inputs[..j + 1] + rest;
    var req' := WithInputs(req, xs);
    assert forall k :: 0 <= k <= j ==> xs[k] == req.operation.inputs[k];
    RunFailFast(h, req, v, req.operation.inputs, j);
    RunFailFast(h, req, v, xs, j);
    RunIgnoresOtherInputs(h, req, v, xs, xs);
  }

  lemma {:induction false} RunIgnoresRegistry(h: Host, f: string -> Option<string>, req: Req, v: VerifierClass, xs: seq<Entry>)
    requires forall k :: 0 <= k < |xs| ==> SelfCertifying(xs[k].address)
    ensures Run(h.(registryVerkey := f), req, v, xs) == Run(h, req, v, xs)
  {
    if xs != [] {
      RunIgnoresRegistry(h, f, req, v, xs[..|xs| - 1]);
    }
  }

  /**
   * Self-certifying shortcut: when every input address has 43 or 44 characters, the outcome
   * is the same whatever the identity registry holds.
   */
  lemma RegistryNeverConsulted(h: Host, f: string -> Option<string>, req: Req, v: VerifierClass)
    requires forall k :: 0 <= k < |req.operation.inputs| ==> SelfCertifying(req.operation.inputs[k].address)
    ensures XferSpec(h.(registryVerkey := f), req, v) == XferSpec(h, req, v)
  {
    RunIgnoresRegistry(h, f, req, v, req.operation.inputs);
  }

  /**
   * With `AddressSigVerifier`, a 43- or 44-character address is base58-decoded into the Ed25519
   * key itself; a text that does not decode makes the verifier's constructor raise.
   */
  lemma AddressIsItsOwnKey(h: Host, req: Req, inp: Entry)
    requires SelfCertifying(inp.address) && inp.sig.Some? && h.b58decode(inp.sig.value).Some?
    ensures h.b58decode(inp.address).None? ==>
      Step(h, req, AddressSigVerifier, inp) == Fail(BadVerkey(inp.address))
    ensures h.b58decode(inp.address).Some? && h.nacl(h.b58decode(inp.address).value).Some? ==>
      Step(h, req, AddressSigVerifier, inp)
        == Checked(h.nacl(h.b58decode(inp.address).value).value(h.b58decode(inp.sig.value).value,
                                                                SigMessage(h, req, inp)))
  {
  }

  /** An admitted transfer carries a signature on every input, and `get_sigs` pairs them with the returned addresses. */
  lemma AdmittedHasSigs(h: Host, req: Req, v: VerifierClass)
    requires XferSpec(h, req, v).Ok?
    ensures GetSigs(req.operation).Some?
    ensures forall k :: 0 <= k < |req.operation.inputs| ==>
      GetSigs(req.operation).value[k].0 == XferSpec(h, req, v).value[k]
  {
    XferAdmitted(h, req, v);
  }

  lemma {:induction false} KeepNone(xs: seq<Entry>, idr: Option<string>)
    requires forall k :: 0 <= k < |xs| ==> Some(xs[k].address) != idr
    ensures Keep(xs, idr) == []
  {
    if xs != [] {
      KeepNone(xs[1..], idr);
    }
  }

  /** Order preservation: filtering a concatenation is the concatenation of the filters. */
  lemma {:induction false} KeepAppend(xs: seq<Entry>, ys: seq<Entry>, idr: Option<string>)
    ensures Keep(xs + ys, idr) == Keep(xs, idr) + Keep(ys, idr)
  {
    if xs == [] {
      assert xs + ys == ys;
    } else {
      assert (xs + ys)[0] == xs[0];
      assert (xs + ys)[1..] == xs[1..] + ys;
      KeepAppend(xs[1..], ys, idr);
    }
  }

  /**
   * Exact characterisation of the comprehension, together with `Keep([]) == []`: extending the
   * input list by one input extends the kept list by that input, cut, exactly when it matches.
   */
  lemma KeepStep(xs: seq<Entry>, idr: Option<string>)
    ensures forall k :: 0 <= k < |xs| ==>
      Keep(xs[..k + 1], idr) == Keep(xs[..k], idr) + (if Some(xs[k].address) == idr then [Cut(xs[k])] else [])
  {
    forall k | 0 <= k < |xs|
      ensures Keep(xs[..k + 1], idr) == Keep(xs[..k], idr) + (if Some(xs[k].address) == idr then [Cut(xs[k])] else [])
    {
      assert xs[..k + 1] == xs[..k] + [xs[k]];
      KeepAppend(xs[..k], [xs[k]], idr);
      assert [xs[k]][1..] == [];
    }
  }

  lemma {:induction false} KeepUnique(xs: seq<Entry>, i: nat)
    requires i < |xs|
    requires forall k :: 0 <= k < |xs| && xs[k].address == xs[i].address ==> k == i
    ensures Keep(xs, Some(xs[i].address)) == [Cut(xs[i])]
  {
    var a := xs[i].address;
    if i == 0 {
      KeepNone(xs[1..], Some(a));
    } else {
      assert xs[0].address != a;
      KeepUnique(xs[1..], i - 1);
    }
  }

  lemma {:induction false} KeepRepeated(xs: seq<Entry>, i: nat, j: nat)
    requires i < j < |xs| && xs[i].address == xs[j].address
    ensures |Keep(xs, Some(xs[i].address))| >= 2
  {
    var a := xs[i].address;
    if i == 0 {
      assert xs[1..][j - 1] == xs[j];
      assert Cut(xs[j]) in Keep(xs[1..], Some(a));
    } else {
      KeepRepeated(xs[1..], i - 1, j - 1);
    }
  }

  /**
   * The view the authenticator verifies for input i equals the client-side `_get_xfer_ser_data`
   * view for that input's address exactly when no other input shares the address.
   */
  lemma ViewsAgreeIff(req: Req, i: nat)
    requires i < |req.operation.inputs|
    ensures var a := req.operation.inputs[i].address;
      SigView(req, req.operation.inputs[i]) == XferSerData(req, Some(a)) <==>
      forall k :: 0 <= k < |req.operation.inputs| && req.operation.inputs[k].address == a ==> k == i
  {
    var xs := req.operation.inputs;
    var a := xs[i].address;
    if forall k :: 0 <= k < |xs| && xs[k].address == a ==> k == i {
      KeepUnique(xs, i);
    } else {
      var k :| 0 <= k < |xs| && xs[k].address == a && k != i;
      if i < k { KeepRepeated(xs, i, k); } else { KeepRepeated(xs, k, i); }
      assert |XferSerData(req, Some(a)).operation.inputs| >= 2;
    }
  }

  /**
   * A transfer whose input addresses are pairwise distinct, each signed over what
   * `serializeForSig` gives its address, with decodable signatures and constructible
   * verifiers, is admitted: client and authenticator agree byte for byte.
   */
  lemma ClientSignedTransferAdmitted(h: Host, req: Req, v: VerifierClass)
    requires req.operation.txnType == XFER_PUBLIC
    requires forall k, m :: 0 <= k < m < |req.operation.inputs| ==>
      req.operation.inputs[k].address != req.operation.inputs[m].address
    requires forall k :: 0 <= k < |req.operation.inputs| ==>
      var inp := req.operation.inputs[k];
      inp.sig.Some? && h.b58decode(inp.sig.value).Some? && GetVerkey(h, inp.address).Some? &&
      Construct(h, v, GetVerkey(h, inp.address).value).Some? &&
      Construct(h, v, GetVerkey(h, inp.address).value).value(
        h.b58decode(inp.sig.value).value,
        SerializeForSig(h, req, Some(inp.address), Some(h.excludedFromSigning)).value)
    ensures XferSpec(h, req, v).Ok?
  {
    var xs := req.operation.inputs;
    forall k | 0 <= k < |xs|
      ensures Step(h, req, v, xs[k]) == Checked(true)
    {
      ViewsAgreeIff(req, k);
      assert SigMessage(h, req, xs[k])
          == SerializeForSig(h, req, Some(xs[k].address), Some(h.excludedFromSigning)).value;
    }
    XferAdmitted(h, req, v);
  }

  /** Two inputs from one address are checked against two different messages' views. */
  lemma RepeatedAddressViewsDiffer(req: Req, i: nat, j: nat)
    requires i < |req.operation.inputs| && j < |req.operation.inputs| && i != j
    requires req.operation.inputs[i].address == req.operation.inputs[j].address
    ensures SigView(req, req.operation.inputs[i]) != XferSerData(req, Some(req.operation.inputs[i].address))
  {
    ViewsAgreeIff(req, i);
  }
}
