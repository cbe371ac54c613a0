/** The parameter collection of `main`: six retry-until-accepted prompts, run
    in a fixed order, each skipped when its field is already set in the loaded
    configuration. The operator is a finite sequence of (trimmed) answers;
    running out of answers means the script is still waiting at a prompt. */
module Collector {
  import opened Wrappers
  import opened Text
  import opened Address

  /** The configuration object: JSON keys to string values. */
  type Params = map<string, string>

  const AssetKey: string := "moonwellVaultAsset"
  const NameKey: string := "prizeVaultName"
  const SymbolKey: string := "prizeVaultSymbol"
  const OwnerKey: string := "prizeVaultOwner"
  const FeeKey: string := "prizeVaultYieldFeePercentage"
  const RecipientKey: string := "prizeVaultYieldFeeRecipient"

  /** The fields the operator is prompted for, in prompt order. */
  const FieldKeys: set<string> := {AssetKey, NameKey, SymbolKey, OwnerKey, FeeKey, RecipientKey}

  /** `params[key]` is truthy: set to a non-empty string. */
  predicate Present(p: Params, key: string) {
    key in p && p[key] != ""
  }

  /** `params[key]`, with a missing key read as the empty string (both compare
      unequal to "0"). */
  function Get(p: Params, key: string): string {
    if key in p then p[key] else ""
  }

  /** Every prompted field is set. */
  predicate Complete(p: Params) {
    && Present(p, AssetKey) && Present(p, NameKey) && Present(p, SymbolKey)
    && Present(p, OwnerKey) && Present(p, FeeKey) && Present(p, RecipientKey)
  }

  /** `a` and `b` agree on every key other than `key`. */
  ghost predicate SameExcept(a: Params, b: Params, key: string) {
    forall k :: k != key ==> (k in a <==> k in b) && (k in a ==> a[k] == b[k])
  }

  lemma UpdateSameExcept(a: Params, b: Params, key: string, v: string)
    requires SameExcept(a, b, key)
    ensures a[key := v] == b[key := v]
  {
    assert a[key := v].Keys == b[key := v].Keys;
  }

  /** The fee conversion, left abstract: whether `parseFloat` of the answer
      exceeds 100, and the decimal text of `Math.floor(percent * 1e7)`. */
  datatype FeeScale = FeeScale(exceedsHundred: string -> bool, nineDecimals: string -> string)

  /** Which check a prompt applies to its answers. */
  datatype Rule = AddressRule | OwnerRule | TextRule | FeeRule(scale: FeeScale)

  /** What a value stored by a prompt following `rule` satisfies. */
  predicate Valid(rule: Rule, v: string) {
    match rule
    case AddressRule => IsAddress(v)
    case OwnerRule => IsAddress(v) && v != ZeroAddress()
    case TextRule => v != ""
    case FeeRule(_) => v != ""
  }

  /** The answer ends the prompt's loop. A fee answer that is blank ends it;
      one whose value exceeds 100 does not; otherwise the converted text is
      stored, which ends the loop when it is non-empty. */
  predicate Accepts(rule: Rule, s: string) {
    match rule
    case FeeRule(scale) => s == "" || (!scale.exceedsHundred(s) && scale.nineDecimals(s) != "")
    case _ => Valid(rule, s)
  }

  /** The value an accepted answer leaves in the field: a blank fee becomes
      the string "0", every other answer is stored as typed. */
  function Stored(rule: Rule, s: string): (v: string)
    ensures Accepts(rule, s) ==> Valid(rule, v)
    ensures rule.FeeRule? && s == "" ==> v == "0"
  {
    match rule
    case FeeRule(scale) => if s == "" then "0" else scale.nineDecimals(s)
    case _ => s
  }

  /** One iteration of a prompt's `while` loop body, given the answer `s`. */
  function Answer(p: Params, key: string, rule: Rule, s: string): (q: Params)
    ensures !Present(p, key) ==> (Present(q, key) <==> Accepts(rule, s))
    ensures Accepts(rule, s) ==> q == p[key := Stored(rule, s)]
    ensures SameExcept(q, p, key)
  {
    match rule
    case AddressRule =>
      if IsAddress(s) then p[key := s] else p
    case OwnerRule =>
      if IsAddress(s) then (if s == ZeroAddress() then p else p[key := s]) else p
    case TextRule =>
      p[key := s]
    case FeeRule(scale) =>
      if s == "" then p[key := "0"]
      else if scale.exceedsHundred(s) then p
      else p[key := scale.nineDecimals(s)]
  }

  /** The parameters after a prompt, and the answers not yet read. */
  datatype Collected = Collected(params: Params, rest: seq<string>)

  predicate IsSuffix(a: seq<string>, b: seq<string>) {
    |a| <= |b| && a == b[|b| - |a|..]
  }

  lemma IsSuffixTransitive(a: seq<string>, b: seq<string>, c: seq<string>)
    requires IsSuffix(a, b) && IsSuffix(b, c)
    ensures IsSuffix(a, c)
  {
    assert b[|b| - |a|..] == c[|c| - |a|..];
  }

  /** A prompt for `key` went from `p` to `q`: the field is now set, nothing
      else changed, and a field that was already set was left alone. */
  ghost predicate Fills(p: Params, q: Params, key: string) {
    && Present(q, key)
    && SameExcept(q, p, key)
    && (Present(p, key) ==> q == p)
  }

  lemma FillsKeeps(p: Params, q: Params, key: string, k: string)
    requires Fills(p, q, key)
    ensures q.Keys == p.Keys + {key}
    ensures k != key ==> (Present(q, k) <==> Present(p, k))
    ensures k in p && (k != key || Present(p, k)) ==> k in q && q[k] == p[k]
  {
    assert forall j :: j in q.Keys <==> j in p.Keys + {key} by {
      forall j ensures j in q.Keys <==> j in p.Keys + {key} {
        if j != key {
          assert j in q <==> j in p;
        }
      }
    }
  }

  /** `while (!params[key]) { const input = await ask(...); <body> }`: re-check
      the field, read one answer, apply the body, repeat. None when the answers
      run out first. */
  function PromptLoop(p: Params, key: string, rule: Rule, ins: seq<string>): (r: Option<Collected>)
    ensures Present(p, key) ==> r == Some(Collected(p, ins))
    ensures r.Some? ==> Fills(p, r.value.params, key) && IsSuffix(r.value.rest, ins)
    ensures r.Some? && !Present(p, key) ==> Valid(rule, r.value.params[key]) && |r.value.rest| < |ins|
    decreases |ins|
  {
    if Present(p, key) then Some(Collected(p, ins))
    else if |ins| == 0 then None
    else PromptLoop(Answer(p, key, rule, ins[0]), key, rule, ins[1..])
  }

  /** The index of the first answer `ok` holds of. */
  function FirstWhere(ins: seq<string>, ok: string -> bool): (r: Option<nat>)
    ensures r.Some? ==> && r.value < |ins| && ok(ins[r.value])
                        && forall j :: 0 <= j < r.value ==> !ok(ins[j])
    ensures r.None? ==> forall j :: 0 <= j < |ins| ==> !ok(ins[j])
    decreases |ins|
  {
    if |ins| == 0 then None
    else if ok(ins[0]) then Some(0)
    else match FirstWhere(ins[1..], ok)
         case None => None
         case Some(k) => Some(k + 1)
  }

  /** Reference definition: the index of the first answer the rule accepts. */
  function FirstAccepted(ins: seq<string>, rule: Rule): (r: Option<nat>)
    ensures r.Some? ==> && r.value < |ins| && Accepts(rule, ins[r.value])
                        && forall j {:trigger Accepts(rule, ins[j])} :: 0 <= j < r.value ==> !Accepts(rule, ins[j])
    ensures r.None? ==> forall j {:trigger Accepts(rule, ins[j])} :: 0 <= j < |ins| ==> !Accepts(rule, ins[j])
  {
    FirstWhere(ins, s => Accepts(rule, s))
  }

  /** Reference definition of a prompt on an unset field: answers up to the
      first accepted one are consumed, and the field holds what that answer
      stores. */
  function Accepted(p: Params, key: string, rule: Rule, ins: seq<string>): Option<Collected> {
    match FirstAccepted(ins, rule)
    case None => None
    case Some(k) => Some(Collected(p[key := Stored(rule, ins[k])], ins[k + 1..]))
  }

  /** The loop model and the reference definition agree on an unset field. */
  lemma {:induction false} PromptLoopTakesFirstAccepted(p: Params, key: string, rule: Rule, ins: seq<string>)
    requires !Present(p, key)
    ensures PromptLoop(p, key, rule, ins) == Accepted(p, key, rule, ins)
    decreases |ins|
  {
    if |ins| > 0 && !Accepts(rule, ins[0]) {
      var q := Answer(p, key, rule, ins[0]);
      PromptLoopTakesFirstAccepted(q, key, rule, ins[1..]);
      AcceptedAfterRejection(p, q, key, rule, ins);
    }
  }

  /** After a rejected first answer, the reference definition on the remaining
      answers gives the same outcome, whatever the rejected answer left in the
      (still unset) field. */
  lemma AcceptedAfterRejection(p: Params, q: Params, key: string, rule: Rule, ins: seq<string>)
    requires |ins| > 0 && !Accepts(rule, ins[0]) && SameExcept(q, p, key)
    ensures Accepted(q, key, rule, ins[1..]) == Accepted(p, key, rule, ins)
  {
    FirstAcceptedAfterRejection(ins, rule);
    match FirstAccepted(ins[1..], rule)
    case None =>
    case Some(k) => AcceptedShift(p, q, key, rule, ins, k);
  }

  /** The Some case of the lemma above: the accepted answer is the same one,
      one position later in `ins`. */
  lemma AcceptedShift(p: Params, q: Params, key: string, rule: Rule, ins: seq<string>, k: nat)
    requires |ins| > 0 && SameExcept(q, p, key)
    requires FirstAccepted(ins[1..], rule) == Some(k) && FirstAccepted(ins, rule) == Some(k + 1)
    ensures Accepted(q, key, rule, ins[1..]) == Accepted(p, key, rule, ins)
  {
    var tail := ins[1..];
    AcceptedAt(q, key, rule, tail, k);
    AcceptedAt(p, key, rule, ins, k + 1);
    assert tail[k] == ins[k + 1];
    assert tail[k + 1..] == ins[k + 2..];
    UpdateSameExcept(q, p, key, Stored(rule, tail[k]));
  }

  lemma AcceptedAt(p: Params, key: string, rule: Rule, ins: seq<string>, k: nat)
    requires FirstAccepted(ins, rule) == Some(k)
    ensures k < |ins| && Accepted(p, key, rule, ins) == Some(Collected(p[key := Stored(rule, ins[k])], ins[k + 1..]))
  {
  }

  /** A rejected first answer shifts the first accepted index by one. */
  lemma FirstAcceptedAfterRejection(ins: seq<string>, rule: Rule)
    requires |ins| > 0 && !Accepts(rule, ins[0])
    ensures FirstAccepted(ins, rule) == match FirstAccepted(ins[1..], rule)
                                        case None => None
                                        case Some(k) => Some(k + 1)
  {
    var ok := s => Accepts(rule, s);
    assert !ok(ins[0]);
    assert FirstAccepted(ins, rule) == FirstWhere(ins, ok);
    assert FirstAccepted(ins[1..], rule) == FirstWhere(ins[1..], ok);
  }

  /** A prompt reads answers one at a time: answers appended after the
      accepted one are left unread. */
  lemma PromptLoopExtend(p: Params, key: string, rule: Rule, ins: seq<string>, more: seq<string>)
    requires PromptLoop(p, key, rule, ins).Some?
    ensures var c := PromptLoop(p, key, rule, ins).value;
            PromptLoop(p, key, rule, ins + more) == Some(Collected(c.params, c.rest + more))
  {
    PromptLoopIsPrompt(p, key, rule, ins);
    PromptLoopIsPrompt(p, key, rule, ins + more);
    PromptExtend(p, key, rule, ins, more);
  }

  lemma PromptExtend(p: Params, key: string, rule: Rule, ins: seq<string>, more: seq<string>)
    requires Prompt(p, key, rule, ins).Some?
    ensures var c := Prompt(p, key, rule, ins).value;
            Prompt(p, key, rule, ins + more) == Some(Collected(c.params, c.rest + more))
  {
    if !Present(p, key) {
      var k := FirstAccepted(ins, rule).value;
      FirstAcceptedExtend(ins, more, rule);
      AcceptedAt(p, key, rule, ins, k);
      AcceptedAt(p, key, rule, ins + more, k);
      SameAnswerAt(ins, more, k);
    }
  }

  lemma SameAnswerAt(ins: seq<string>, more: seq<string>, k: nat)
    requires k < |ins|
    ensures (ins + more)[k] == ins[k] && (ins + more)[k + 1..] == ins[k + 1..] + more
  {
  }

  lemma FirstAcceptedExtend(ins: seq<string>, more: seq<string>, rule: Rule)
    requires FirstAccepted(ins, rule).Some?
    ensures FirstAccepted(ins + more, rule) == FirstAccepted(ins, rule)
  {
    var ok := s => Accepts(rule, s);
    assert FirstAccepted(ins, rule) == FirstWhere(ins, ok);
    assert FirstAccepted(ins + more, rule) == FirstWhere(ins + more, ok);
    FirstWhereExtend(ins, more, ok);
  }

  /** Answers appended after the first one `ok` holds of do not move it. */
  lemma {:induction false} FirstWhereExtend(ins: seq<string>, more: seq<string>, ok: string -> bool)
    requires FirstWhere(ins, ok).Some?
    ensures FirstWhere(ins + more, ok) == FirstWhere(ins, ok)
    decreases |ins|
  {
    assert (ins + more)[0] == ins[0];
    if !ok(ins[0]) {
      assert (ins + more)[1..] == ins[1..] + more;
      FirstWhereExtend(ins[1..], more, ok);
    }
  }

  /** The fee recipient prompt. A fee of exactly "0" sets the
      zero address without reading an answer; otherwise the answer must pass
      `isAddress`. The fee cannot change inside this loop, so testing it once
      is the same as testing it on every iteration. */
  function RecipientStep(p: Params, ins: seq<string>): (r: Option<Collected>)
    ensures Present(p, RecipientKey) ==> r == Some(Collected(p, ins))
    ensures !Present(p, RecipientKey) && Get(p, FeeKey) == "0"
            ==> r == Some(Collected(p[RecipientKey := ZeroAddress()], ins))
    ensures r.Some? ==> Fills(p, r.value.params, RecipientKey) && IsSuffix(r.value.rest, ins)
    ensures r.Some? && !Present(p, RecipientKey) && Get(p, FeeKey) != "0"
            ==> IsAddress(r.value.params[RecipientKey])
  {
    if Present(p, RecipientKey) then Some(Collected(p, ins))
    else if Get(p, FeeKey) == "0" then Some(Collected(p[RecipientKey := ZeroAddress()], ins))
    else PromptLoop(p, RecipientKey, AddressRule, ins)
  }

  /** The six prompts in source order: asset, name, symbol, owner, fee
      percentage, fee recipient. None when the answers run out. */
  function Collect(p: Params, ins: seq<string>, scale: FeeScale): (r: Option<Collected>)
    ensures r.Some? ==> Complete(r.value.params) && IsSuffix(r.value.rest, ins)
    ensures r.Some? ==> r.value.params.Keys == p.Keys + FieldKeys
    ensures r.Some? ==> Keeps(p, r.value.params)
    ensures Complete(p) ==> r == Some(Collected(p, ins))
    ensures r.Some? && !Present(p, AssetKey) ==> Valid(AddressRule, r.value.params[AssetKey])
    ensures r.Some? && !Present(p, OwnerKey) ==> Valid(OwnerRule, r.value.params[OwnerKey])
    ensures r.Some? && !Present(p, RecipientKey)
            ==> if r.value.params[FeeKey] == "0" then r.value.params[RecipientKey] == ZeroAddress()
                else Valid(AddressRule, r.value.params[RecipientKey])
  {
    var asset :- PromptLoop(p, AssetKey, AddressRule, ins);
    var name :- PromptLoop(asset.params, NameKey, TextRule, asset.rest);
    var symbol :- PromptLoop(name.params, SymbolKey, TextRule, name.rest);
    var owner :- PromptLoop(symbol.params, OwnerKey, OwnerRule, symbol.rest);
    var fee :- PromptLoop(owner.params, FeeKey, FeeRule(scale), owner.rest);
    var r := RecipientStep(fee.params, fee.rest);
    CollectChain(p, ins, scale, asset, name, symbol, owner, fee, r);
    r
  }

  /** The fields that `q` must keep from `p`: every field already set, and
      every key the prompts do not own. */
  ghost predicate Keeps(p: Params, q: Params) {
    forall k :: k in p && (Present(p, k) || k !in FieldKeys) ==> k in q && q[k] == p[k]
  }

  lemma FillsKeepsAll(p: Params, q: Params, key: string)
    requires Fills(p, q, key) && key in FieldKeys
    ensures Keeps(p, q) && q.Keys == p.Keys + {key}
  {
    forall k | k in p && (Present(p, k) || k !in FieldKeys)
      ensures k in q && q[k] == p[k]
    {
      FillsKeeps(p, q, key, k);
    }
    FillsKeeps(p, q, key, key);
  }

  lemma KeepsTransitive(p: Params, q: Params, r: Params)
    requires Keeps(p, q) && Keeps(q, r)
    ensures Keeps(p, r)
  {
    forall k | k in p && (Present(p, k) || k !in FieldKeys)
      ensures k in r && r[k] == p[k]
    {
      assert k in q && q[k] == p[k];
    }
  }

  /** Six successive prompts, each filling its own field, add exactly the
      six fields to the key set and keep everything the later prompts must
      keep. */
  lemma ChainKeeps(p: Params, a: Params, n: Params, s: Params, o: Params, f: Params, q: Params)
    requires Fills(p, a, AssetKey) && Fills(a, n, NameKey) && Fills(n, s, SymbolKey)
    requires Fills(s, o, OwnerKey) && Fills(o, f, FeeKey) && Fills(f, q, RecipientKey)
    ensures q.Keys == p.Keys + FieldKeys
    ensures Keeps(p, q) && Keeps(a, q) && Keeps(n, q) && Keeps(s, q) && Keeps(o, q) && Keeps(f, q)
    ensures Present(s, OwnerKey) <==> Present(p, OwnerKey)
    ensures Present(f, RecipientKey) <==> Present(p, RecipientKey)
  {
    FillsKeepsAll(f, q, RecipientKey);
    FillsKeepsAll(o, f, FeeKey);
    KeepsTransitive(o, f, q);
    FillsKeepsAll(s, o, OwnerKey);
    KeepsTransitive(s, o, q);
    FillsKeepsAll(n, s, SymbolKey);
    KeepsTransitive(n, s, q);
    FillsKeepsAll(a, n, NameKey);
    KeepsTransitive(a, n, q);
    FillsKeepsAll(p, a, AssetKey);
    KeepsTransitive(p, a, q);
    ChainKeys(p.Keys, a.Keys, n.Keys, s.Keys, o.Keys, f.Keys, q.Keys);
    FillsKeeps(p, a, AssetKey, RecipientKey);
    FillsKeeps(a, n, NameKey, RecipientKey);
    FillsKeeps(n, s, SymbolKey, RecipientKey);
    FillsKeeps(s, o, OwnerKey, RecipientKey);
    FillsKeeps(o, f, FeeKey, RecipientKey);
    FillsKeeps(p, a, AssetKey, OwnerKey);
    FillsKeeps(a, n, NameKey, OwnerKey);
    FillsKeeps(n, s, SymbolKey, OwnerKey);
  }

  /** A field that is set survives every later prompt. */
  lemma KeptValue(o: Params, q: Params, key: string)
    requires Present(o, key) && Keeps(o, q)
    ensures key in q && q[key] == o[key]
  {
  }

  lemma ChainKeys(p: set<string>, a: set<string>, n: set<string>, s: set<string>,
                  o: set<string>, f: set<string>, q: set<string>)
    requires a == p + {AssetKey} && n == a + {NameKey} && s == n + {SymbolKey}
    requires o == s + {OwnerKey} && f == o + {FeeKey} && q == f + {RecipientKey}
    ensures q == p + FieldKeys
  {
  }

  /** The facts about Collect, proved one prompt at a time. */
  lemma CollectChain(p: Params, ins: seq<string>, scale: FeeScale,
                     a: Collected, n: Collected, s: Collected, o: Collected, f: Collected,
                     r: Option<Collected>)
    requires PromptLoop(p, AssetKey, AddressRule, ins) == Some(a)
    requires PromptLoop(a.params, NameKey, TextRule, a.rest) == Some(n)
    requires PromptLoop(n.params, SymbolKey, TextRule, n.rest) == Some(s)
    requires PromptLoop(s.params, OwnerKey, OwnerRule, s.rest) == Some(o)
    requires PromptLoop(o.params, FeeKey, FeeRule(scale), o.rest) == Some(f)
    requires r == RecipientStep(f.params, f.rest)
    ensures r.Some? ==> Complete(r.value.params) && IsSuffix(r.value.rest, ins)
    ensures r.Some? ==> r.value.params.Keys == p.Keys + FieldKeys
    ensures r.Some? ==> Keeps(p, r.value.params)
    ensures Complete(p) ==> r == Some(Collected(p, ins))
    ensures r.Some? && !Present(p, AssetKey) ==> Valid(AddressRule, r.value.params[AssetKey])
    ensures r.Some? && !Present(p, OwnerKey) ==> Valid(OwnerRule, r.value.params[OwnerKey])
    ensures r.Some? && !Present(p, RecipientKey)
            ==> if r.value.params[FeeKey] == "0" then r.value.params[RecipientKey] == ZeroAddress()
                else Valid(AddressRule, r.value.params[RecipientKey])
  {
    if r.Some? {
      var q := r.value.params;
      IsSuffixTransitive(n.rest, a.rest, ins);
      IsSuffixTransitive(s.rest, n.rest, ins);
      IsSuffixTransitive(o.rest, s.rest, ins);
      IsSuffixTransitive(f.rest, o.rest, ins);
      IsSuffixTransitive(r.value.rest, f.rest, ins);
      ChainKeeps(p, a.params, n.params, s.params, o.params, f.params, q);
      ChainComplete(a.params, n.params, s.params, o.params, f.params, q);
      KeptValue(o.params, q, OwnerKey);
      KeptValue(f.params, q, FeeKey);
    }
  }

  /** Each field set by its own prompt is still set at the end. */
  lemma ChainComplete(a: Params, n: Params, s: Params, o: Params, f: Params, q: Params)
    requires Present(a, AssetKey) && Present(n, NameKey) && Present(s, SymbolKey)
    requires Present(o, OwnerKey) && Present(f, FeeKey) && Present(q, RecipientKey)
    requires Keeps(a, q) && Keeps(n, q) && Keeps(s, q) && Keeps(o, q) && Keeps(f, q)
    ensures Complete(q)
  {
  }

  // ---------------------------------------------------------------------------
  // Reference definition of the whole collection
  // ---------------------------------------------------------------------------

  /** Reference definition of one prompt: a field already set is skipped and
      reads nothing; otherwise the first accepted answer decides. */
  function Prompt(p: Params, key: string, rule: Rule, ins: seq<string>): Option<Collected> {
    if Present(p, key) then Some(Collected(p, ins)) else Accepted(p, key, rule, ins)
  }

  lemma PromptLoopIsPrompt(p: Params, key: string, rule: Rule, ins: seq<string>)
    ensures PromptLoop(p, key, rule, ins) == Prompt(p, key, rule, ins)
  {
    if !Present(p, key) {
      PromptLoopTakesFirstAccepted(p, key, rule, ins);
    }
  }

  /** Reference definition of the recipient prompt. */
  function RecipientByReference(p: Params, ins: seq<string>): Option<Collected> {
    if Present(p, RecipientKey) then Some(Collected(p, ins))
    else if Get(p, FeeKey) == "0" then Some(Collected(p[RecipientKey := ZeroAddress()], ins))
    else Accepted(p, RecipientKey, AddressRule, ins)
  }

  /** Reference definition of the collection: each prompt keeps a set field
      and otherwise stores what its first accepted answer stores. */
  function CollectByReference(p: Params, ins: seq<string>, scale: FeeScale): Option<Collected> {
    var asset :- Prompt(p, AssetKey, AddressRule, ins);
    var name :- Prompt(asset.params, NameKey, TextRule, asset.rest);
    var symbol :- Prompt(name.params, SymbolKey, TextRule, name.rest);
    var owner :- Prompt(symbol.params, OwnerKey, OwnerRule, symbol.rest);
    var fee :- Prompt(owner.params, FeeKey, FeeRule(scale), owner.rest);
    RecipientByReference(fee.params, fee.rest)
  }

  /** The six loops agree with the reference definition on every input. */
  lemma CollectMatchesReference(p: Params, ins: seq<string>, scale: FeeScale)
    ensures Collect(p, ins, scale) == CollectByReference(p, ins, scale)
  {
    PromptLoopIsPrompt(p, AssetKey, AddressRule, ins);
    match PromptLoop(p, AssetKey, AddressRule, ins)
    case None =>
    case Some(a) => MatchesAfterAsset(p, ins, scale, a);
  }

  // The remaining prompts, one lemma per completed prompt.

  lemma MatchesAfterAsset(p: Params, ins: seq<string>, scale: FeeScale, a: Collected)
    requires PromptLoop(p, AssetKey, AddressRule, ins) == Some(a)
    requires Prompt(p, AssetKey, AddressRule, ins) == Some(a)
    ensures Collect(p, ins, scale) == CollectByReference(p, ins, scale)
  {
    PromptLoopIsPrompt(a.params, NameKey, TextRule, a.rest);
    match PromptLoop(a.params, NameKey, TextRule, a.rest)
    case None =>
    case Some(n) => MatchesAfterName(p, ins, scale, a, n);
  }

  lemma MatchesAfterName(p: Params, ins: seq<string>, scale: FeeScale, a: Collected, n: Collected)
    requires PromptLoop(p, AssetKey, AddressRule, ins) == Some(a)
    requires Prompt(p, AssetKey, AddressRule, ins) == Some(a)
    requires PromptLoop(a.params, NameKey, TextRule, a.rest) == Some(n)
    requires Prompt(a.params, NameKey, TextRule, a.rest) == Some(n)
    ensures Collect(p, ins, scale) == CollectByReference(p, ins, scale)
  {
    PromptLoopIsPrompt(n.params, SymbolKey, TextRule, n.rest);
    match PromptLoop(n.params, SymbolKey, TextRule, n.rest)
    case None =>
    case Some(s) => MatchesAfterSymbol(p, ins, scale, a, n, s);
  }

  lemma MatchesAfterSymbol(p: Params, ins: seq<string>, scale: FeeScale, a: Collected, n: Collected,
                           s: Collected)
    requires PromptLoop(p, AssetKey, AddressRule, ins) == Some(a)
    requires Prompt(p, AssetKey, AddressRule, ins) == Some(a)
    requires PromptLoop(a.params, NameKey, TextRule, a.rest) == Some(n)
    requires Prompt(a.params, NameKey, TextRule, a.rest) == Some(n)
    requires PromptLoop(n.params, SymbolKey, TextRule, n.rest) == Some(s)
    requires Prompt(n.params, SymbolKey, TextRule, n.rest) == Some(s)
    ensures Collect(p, ins, scale) == CollectByReference(p, ins, scale)
  {
    PromptLoopIsPrompt(s.params, OwnerKey, OwnerRule, s.rest);
    match PromptLoop(s.params, OwnerKey, OwnerRule, s.rest)
    case None =>
    case Some(o) => MatchesAfterOwner(p, ins, scale, a, n, s, o);
  }

  lemma MatchesAfterOwner(p: Params, ins: seq<string>, scale: FeeScale, a: Collected, n: Collected,
                          s: Collected, o: Collected)
    requires PromptLoop(p, AssetKey, AddressRule, ins) == Some(a)
    requires Prompt(p, AssetKey, AddressRule, ins) == Some(a)
    requires PromptLoop(a.params, NameKey, TextRule, a.rest) == Some(n)
    requires Prompt(a.params, NameKey, TextRule, a.rest) == Some(n)
    requires PromptLoop(n.params, SymbolKey, TextRule, n.rest) == Some(s)
    requires Prompt(n.params, SymbolKey, TextRule, n.rest) == Some(s)
    requires PromptLoop(s.params, OwnerKey, OwnerRule, s.rest) == Some(o)
    requires Prompt(s.params, OwnerKey, OwnerRule, s.rest) == Some(o)
    ensures Collect(p, ins, scale) == CollectByReference(p, ins, scale)
  {
    PromptLoopIsPrompt(o.params, FeeKey, FeeRule(scale), o.rest);
    match PromptLoop(o.params, FeeKey, FeeRule(scale), o.rest)
    case None =>
    case Some(f) =>
      CollectUnfolds(p, ins, scale, a, n, s, o, f);
      ReferenceUnfolds(p, ins, scale, a, n, s, o, f);
      RecipientMatchesReference(f.params, f.rest);
  }

  lemma RecipientMatchesReference(p: Params, ins: seq<string>)
    ensures RecipientStep(p, ins) == RecipientByReference(p, ins)
  {
    PromptLoopIsPrompt(p, RecipientKey, AddressRule, ins);
  }

  /** Collect, once its first five prompts have completed. */
  lemma CollectUnfolds(p: Params, ins: seq<string>, scale: FeeScale,
                       a: Collected, n: Collected, s: Collected, o: Collected, f: Collected)
    requires PromptLoop(p, AssetKey, AddressRule, ins) == Some(a)
    requires PromptLoop(a.params, NameKey, TextRule, a.rest) == Some(n)
    requires PromptLoop(n.params, SymbolKey, TextRule, n.rest) == Some(s)
    requires PromptLoop(s.params, OwnerKey, OwnerRule, s.rest) == Some(o)
    requires PromptLoop(o.params, FeeKey, FeeRule(scale), o.rest) == Some(f)
    ensures Collect(p, ins, scale) == RecipientStep(f.params, f.rest)
  {
  }

  /** The reference collection, once its first five prompts have completed. */
  lemma ReferenceUnfolds(p: Params, ins: seq<string>, scale: FeeScale,
                         a: Collected, n: Collected, s: Collected, o: Collected, f: Collected)
    requires Prompt(p, AssetKey, AddressRule, ins) == Some(a)
    requires Prompt(a.params, NameKey, TextRule, a.rest) == Some(n)
    requires Prompt(n.params, SymbolKey, TextRule, n.rest) == Some(s)
    requires Prompt(s.params, OwnerKey, OwnerRule, s.rest) == Some(o)
    requires Prompt(o.params, FeeKey, FeeRule(scale), o.rest) == Some(f)
    ensures CollectByReference(p, ins, scale) == RecipientByReference(f.params, f.rest)
  {
  }

  // ---------------------------------------------------------------------------
  // Answers are read one at a time
  // ---------------------------------------------------------------------------

  lemma RecipientStepExtend(p: Params, ins: seq<string>, more: seq<string>)
    requires RecipientStep(p, ins).Some?
    ensures var c := RecipientStep(p, ins).value;
            RecipientStep(p, ins + more) == Some(Collected(c.params, c.rest + more))
  {
    if !Present(p, RecipientKey) && Get(p, FeeKey) != "0" {
      PromptLoopExtend(p, RecipientKey, AddressRule, ins, more);
    }
  }

  /** A completed collection has read a prefix of the answers: appending more
      answers leaves the result alone and only lengthens what is unread. */
  lemma CollectExtend(p: Params, ins: seq<string>, more: seq<string>, scale: FeeScale)
    requires Collect(p, ins, scale).Some?
    ensures var c := Collect(p, ins, scale).value;
            Collect(p, ins + more, scale) == Some(Collected(c.params, c.rest + more))
  {
    var a := PromptLoop(p, AssetKey, AddressRule, ins).value;
    PromptLoopExtend(p, AssetKey, AddressRule, ins, more);
    var n := PromptLoop(a.params, NameKey, TextRule, a.rest).value;
    PromptLoopExtend(a.params, NameKey, TextRule, a.rest, more);
    var s := PromptLoop(n.params, SymbolKey, TextRule, n.rest).value;
    PromptLoopExtend(n.params, SymbolKey, TextRule, n.rest, more);
    var o := PromptLoop(s.params, OwnerKey, OwnerRule, s.rest).value;
    PromptLoopExtend(s.params, OwnerKey, OwnerRule, s.rest, more);
    var f := PromptLoop(o.params, FeeKey, FeeRule(scale), o.rest).value;
    PromptLoopExtend(o.params, FeeKey, FeeRule(scale), o.rest, more);
    RecipientStepExtend(f.params, f.rest, more);
  }
}
