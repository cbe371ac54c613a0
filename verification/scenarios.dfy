/** What a prompt does with one particular answer. */
module Scenarios {
  import opened Wrappers
  import opened Text
  import opened Address
  import opened Collector
  import opened Deploy

  /** An address prompt on an unset field takes a well-formed address at once. */
  lemma AddressPromptTakes(p: Params, key: string, s: string, rest: seq<string>)
    requires !Present(p, key) && IsHexAddress(s)
    ensures PromptLoop(p, key, AddressRule, [s] + rest) == Some(Collected(p[key := s], rest))
  {
    HexAddressIsAddress(s);
    assert ([s] + rest)[1..] == rest;
  }

  /** The owner prompt reads the zero address, discards it and asks again. */
  lemma OwnerRejectsZeroAddress(p: Params, rest: seq<string>)
    requires !Present(p, OwnerKey)
    ensures PromptLoop(p, OwnerKey, OwnerRule, [ZeroAddress()] + rest) == PromptLoop(p, OwnerKey, OwnerRule, rest)
  {
    assert Answer(p, OwnerKey, OwnerRule, ZeroAddress()) == p;
    assert ([ZeroAddress()] + rest)[1..] == rest;
  }

  /** The recipient prompt does not apply the owner's zero-address rule: with
      a fee other than "0", the zero address is accepted as recipient. */
  lemma RecipientAcceptsZeroAddress(p: Params, rest: seq<string>)
    requires !Present(p, RecipientKey) && Get(p, FeeKey) != "0"
    ensures RecipientStep(p, [ZeroAddress()] + rest)
            == Some(Collected(p[RecipientKey := ZeroAddress()], rest))
  {
    ZeroAddressIsAddress();
    assert ([ZeroAddress()] + rest)[1..] == rest;
  }

  /** A blank fee answer stores "0" and ends the fee prompt. */
  lemma BlankFeeStoresZero(p: Params, scale: FeeScale, rest: seq<string>)
    requires !Present(p, FeeKey)
    ensures PromptLoop(p, FeeKey, FeeRule(scale), [""] + rest) == Some(Collected(p[FeeKey := "0"], rest))
  {
    assert ([""] + rest)[1..] == rest;
  }

  /** A fee above 100 is read, stores nothing, and the prompt asks again. */
  lemma FeeAboveHundredRetries(p: Params, scale: FeeScale, s: string, rest: seq<string>)
    requires !Present(p, FeeKey) && s != "" && scale.exceedsHundred(s)
    ensures PromptLoop(p, FeeKey, FeeRule(scale), [s] + rest) == PromptLoop(p, FeeKey, FeeRule(scale), rest)
  {
    assert ([s] + rest)[1..] == rest;
  }

  /** A text prompt on an unset field takes a non-empty answer at once. */
  lemma TextPromptTakes(p: Params, key: string, s: string, rest: seq<string>)
    requires !Present(p, key) && s != ""
    ensures PromptLoop(p, key, TextRule, [s] + rest) == Some(Collected(p[key := s], rest))
  {
    assert ([s] + rest)[1..] == rest;
  }

  /** The owner prompt takes a well-formed address other than zero at once. */
  lemma OwnerPromptTakes(p: Params, s: string, rest: seq<string>)
    requires !Present(p, OwnerKey) && IsHexAddress(s) && s != ZeroAddress()
    ensures PromptLoop(p, OwnerKey, OwnerRule, [s] + rest) == Some(Collected(p[OwnerKey := s], rest))
  {
    HexAddressIsAddress(s);
    assert ([s] + rest)[1..] == rest;
  }

  /** With the sender's nonce at 5, the address is computed for nonce 6, and
      a rejected `compute-address` call ends the run. */
  lemma NonceFiveAsksForSix(params: Params, rest: seq<string>, cast: Cast)
    requires cast.nonce == Some(5)
    ensures AfterPrompts(params, rest, cast).Crashed? <==> cast.computeAddress(6).None?
    ensures cast.computeAddress(6).Some? && |rest| == 0
            ==> AfterPrompts(params, rest, cast)
                == AtWarning(params[YieldAddressKey := ComputedAddress(cast.computeAddress(6).value)])
  {
  }
}
