/** The end of `main`: the yield vault's future address, the acknowledgement
    of the donation warning, the written configuration and the final yes/no
    confirmation that decides the exit code. */
module Deploy {
  import opened Wrappers
  import opened Text
  import opened Address
  import opened Collector

  const YieldAddressKey: string := "yieldVaultComputedAddress"
  const PlaceholderKey: string := "prizeVaultComputedAddress"
  const Placeholder: string := "placeholder"

  /** The two `cast` queries, as seen by the script: the parsed nonce of the
      sender, and the standard output of `compute-address` for a nonce. None
      stands for a rejected call (an error, or output on standard error), which
      nothing catches. */
  datatype Cast = Cast(nonce: Option<int>, computeAddress: int -> Option<string>)

  /** Where a run over a finite sequence of answers stops. */
  datatype Outcome =
    | AtPrompt                        // still waiting at one of the six prompts
    | Crashed                         // a `cast` call rejected
    | AtWarning(params: Params)       // waiting for the donation acknowledgement
    | AtConfirmation(written: Params) // config written, waiting for y/n
    | Exited(written: Params, code: int)

  /** `f` applied to every element. */
  function Each(s: seq<string>, f: string -> string): (r: seq<string>)
    ensures |r| == |s|
    decreases |s|
  {
    if |s| == 0 then [] else [f(s[0])] + Each(s[1..], f)
  }

  lemma {:induction false} EachAppend(s: seq<string>, t: seq<string>, f: string -> string)
    ensures Each(s + t, f) == Each(s, f) + Each(t, f)
    decreases |s|
  {
    if |s| == 0 {
      assert s + t == t;
    } else {
      assert (s + t)[0] == s[0];
      assert (s + t)[1..] == s[1..] + t;
      EachAppend(s[1..], t, f);
    }
  }

  /** Every answer as `ask` returns it: trimmed. */
  function TrimAll(answers: seq<string>): (r: seq<string>)
    ensures |r| == |answers|
  {
    Each(answers, Trim)
  }

  lemma TrimAllAppend(answers: seq<string>, more: seq<string>)
    ensures TrimAll(answers + more) == TrimAll(answers) + TrimAll(more)
  {
    EachAppend(answers, more, Trim);
  }

  // ---------------------------------------------------------------------------
  // The computed address
  // ---------------------------------------------------------------------------

  /** `"0x" + out.trim().split("0x")[1]`: a missing second piece is the value
      `undefined`, which string concatenation spells out. */
  function ComputedAddress(out: string): (a: string)
    ensures match FirstSep(Trim(out))
            case None => a == "0xundefined"
            case Some(i) =>
              var after := Trim(out)[i + 2..];
              a == "0x" + match FirstSep(after)
                          case None => after
                          case Some(j) => after[..j]
  {
    var pieces := Split(Trim(out));
    SplitSecondPiece(Trim(out));
    if |pieces| >= 2 then "0x" + pieces[1] else "0xundefined"
  }

  /** Hex digits never hold the separator "0x": 'x' is not a hex digit. */
  lemma HexDigitsHaveNoSep(h: string)
    requires forall i {:trigger IsDigit(h[i], Hex)} :: 0 <= i < |h| ==> IsDigit(h[i], Hex)
    ensures NoSep(h)
  {
    forall i | 0 <= i < |h|
      ensures !SepAt(h, i)
    {
      if i + 1 < |h| {
        assert IsDigit(h[i + 1], Hex);
      }
    }
  }

  /** When the trimmed tool output is a prefix without "0x" followed by a
      well-formed address, the stored value is exactly that address. */
  lemma ComputedAddressOfToolOutput(out: string, prefix: string, addr: string)
    requires Trim(out) == prefix + addr && NoSep(prefix) && IsHexAddress(addr)
    ensures ComputedAddress(out) == addr
  {
    var h := addr[2..];
    forall i | 0 <= i < |h|
      ensures IsDigit(h[i], Hex)
    {
      assert h[i] == addr[i + 2];
    }
    HexDigitsHaveNoSep(h);
    assert addr == "0x" + h;
    assert Trim(out) == Join([prefix, h]);
    SplitJoin([prefix, h]);
  }

  /** Output without any "0x" yields the literal text "0xundefined". */
  lemma ComputedAddressWithoutSep(out: string)
    requires NoSep(Trim(out))
    ensures ComputedAddress(out) == "0xundefined"
  {
    SplitJoin([Trim(out)]);
  }

  // ---------------------------------------------------------------------------
  // Written configuration and confirmation
  // ---------------------------------------------------------------------------

  /** `{...params, prizeVaultComputedAddress: "placeholder"}`. */
  function Written(params: Params): (w: Params)
    ensures w.Keys == params.Keys + {PlaceholderKey}
    ensures w[PlaceholderKey] == Placeholder
    ensures forall k :: k in params && k != PlaceholderKey ==> w[k] == params[k]
  {
    params[PlaceholderKey := Placeholder]
  }

  /** `response.toLowerCase().charAt(0) == 'y'`; an empty response has the
      empty string as its first character. */
  predicate Affirmative(response: string) {
    |response| > 0 && LowerChar(response[0]) == 'y'
  }

  lemma AffirmativeIff(response: string)
    ensures Affirmative(response) <==> |response| > 0 && (response[0] == 'y' || response[0] == 'Y')
  {
  }

  /** The exit code of the confirmation: 0 to deploy, 1 to abort. */
  function ExitCode(response: string): (code: int)
    ensures code == 0 || code == 1
    ensures code == 0 <==> |response| > 0 && (response[0] == 'y' || response[0] == 'Y')
  {
    if Affirmative(response) then 0 else 1
  }

  /** `params` with the computed address stored and the placeholder added:
      nothing else changes. */
  ghost predicate Merged(params: Params, address: string, w: Params) {
    && w.Keys == params.Keys + {YieldAddressKey, PlaceholderKey}
    && w[YieldAddressKey] == address
    && w[PlaceholderKey] == Placeholder
    && forall k :: k in params && k != YieldAddressKey && k != PlaceholderKey ==> w[k] == params[k]
  }

  /** Everything after the six prompts: the nonce query, the address for
      nonce + 1, the acknowledgement (read, whatever it says), the written
      configuration and the confirmation. */
  function AfterPrompts(params: Params, rest: seq<string>, cast: Cast): (o: Outcome)
    ensures !o.AtPrompt?
    ensures o.Crashed? <==> cast.nonce.None? || cast.computeAddress(cast.nonce.value + 1).None?
    ensures !o.Crashed? ==>
              var address := ComputedAddress(cast.computeAddress(cast.nonce.value + 1).value);
              && (o.AtWarning? <==> |rest| == 0)
              && (o.AtWarning? ==> o.params == params[YieldAddressKey := address])
              && (o.AtConfirmation? <==> |rest| == 1)
              && (o.Exited? <==> |rest| >= 2)
              && (o.AtConfirmation? || o.Exited? ==> Merged(params, address, o.written))
              && (o.Exited? ==> o.code == ExitCode(rest[1]))
  {
    match cast.nonce
    case None => Crashed
    case Some(n) =>
      match cast.computeAddress(n + 1)
      case None => Crashed
      case Some(out) =>
        var withAddress := params[YieldAddressKey := ComputedAddress(out)];
        if |rest| == 0 then AtWarning(withAddress)
        else if |rest| == 1 then AtConfirmation(Written(withAddress))
        else Exited(Written(withAddress), ExitCode(rest[1]))
  }

  /** A whole run of `main` after the configuration is loaded. The operator's
      answers are trimmed as `ask` does. */
  function Run(loaded: Params, answers: seq<string>, scale: FeeScale, cast: Cast): (o: Outcome)
    ensures o.AtPrompt? <==> Collect(loaded, TrimAll(answers), scale).None?
  {
    match Collect(loaded, TrimAll(answers), scale)
    case None => AtPrompt
    case Some(c) => AfterPrompts(c.params, c.rest, cast)
  }

  /** Answers appended to a run that got past the prompts are only queued
      behind what is left. */
  lemma RunExtend(loaded: Params, answers: seq<string>, more: seq<string>, scale: FeeScale, cast: Cast)
    returns (c: Collected)
    requires !Run(loaded, answers, scale, cast).AtPrompt?
    ensures Run(loaded, answers, scale, cast) == AfterPrompts(c.params, c.rest, cast)
    ensures Run(loaded, answers + more, scale, cast) == AfterPrompts(c.params, c.rest + TrimAll(more), cast)
  {
    c := Collect(loaded, TrimAll(answers), scale).value;
    TrimAllAppend(answers, more);
    CollectExtend(loaded, TrimAll(answers), TrimAll(more), scale);
  }

  lemma TrimAllSingle(x: string)
    ensures TrimAll([x]) == [Trim(x)]
  {
    assert [x][1..] == [];
  }

  /** The acknowledgement is read and ignored: whatever is answered, the
      configuration is then written and the confirmation is awaited. */
  lemma WarningIgnoresAnswer(loaded: Params, answers: seq<string>, ack: string, scale: FeeScale,
                             cast: Cast, params: Params)
    requires Run(loaded, answers, scale, cast) == AtWarning(params)
    ensures Run(loaded, answers + [ack], scale, cast) == AtConfirmation(Written(params))
  {
    var c := RunExtend(loaded, answers, [ack], scale, cast);
    TrimAllSingle(ack);
    assert |c.rest + [Trim(ack)]| == 1;
  }

  /** The configuration is written before the confirmation is read, and the
      confirmation alone decides the exit code. */
  lemma ConfirmationGate(loaded: Params, answers: seq<string>, response: string, scale: FeeScale,
                         cast: Cast, written: Params)
    requires Run(loaded, answers, scale, cast) == AtConfirmation(written)
    ensures Run(loaded, answers + [response], scale, cast) == Exited(written, ExitCode(Trim(response)))
  {
    var c := RunExtend(loaded, answers, [response], scale, cast);
    TrimAllSingle(response);
    var rest := c.rest + [Trim(response)];
    assert |c.rest| == 1 && |rest| == 2 && rest[1] == Trim(response);
  }

  /** Once the script has exited, later answers are never read. */
  lemma ExitIsFinal(loaded: Params, answers: seq<string>, more: seq<string>, scale: FeeScale, cast: Cast)
    requires Run(loaded, answers, scale, cast).Exited?
    ensures Run(loaded, answers + more, scale, cast) == Run(loaded, answers, scale, cast)
  {
    var c := RunExtend(loaded, answers, more, scale, cast);
    assert |c.rest| >= 2;
    assert (c.rest + TrimAll(more))[1] == c.rest[1];
  }
}
