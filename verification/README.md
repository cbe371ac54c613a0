# Moonwell prize vault pre-deployment script, modelled in Dafny

`script/preDeployMoonwellPrizeVault.js` prepares the configuration for
deploying a PoolTogether prize vault on top of a Moonwell asset. It loads a
JSON configuration, then prompts the operator for each of six fields the
configuration lacks:

- the asset address;
- the vault name and symbol;
- the owner, which must not be the zero address;
- the yield fee percentage;
- the fee recipient.

Each prompt repeats until it gets an answer it accepts. The script then asks
`cast` for the sender's nonce and for the address a contract deployed at
nonce + 1 will have, and shows a warning that the operator has to
acknowledge. It writes the merged configuration and exits with 0 or 1
depending on a final y/n confirmation.

The model has six modules:

- `Wrappers`: the `Option` type.
- `Text`: the JavaScript string operations the script uses:
  - `trim`, with the whitespace set of ECMA-262;
  - `split("0x")` and its inverse `join`;
  - lower-casing of the first character.
- `Address`: `isAddress`. `BigInt` acceptance is modelled by the
  StringIntegerLiteral grammar (section 7.1.14 of ECMA-262). The proved
  equivalence says that on trimmed text `isAddress` holds exactly for "0x"
  followed by 40 hex digits.
- `Collector`: the six `while` loops.
  - The operator is a finite sequence of answers, and running out of answers
    means the script is still waiting.
  - Every loop is the recursive `PromptLoop` over the answers, with `Answer`
    as its loop body.
  - The loop is proved equal to a reference definition: the first accepted
    answer decides, and a field that is already set reads nothing.
  - The whole collection is proved equal to the chain of those references.
- `Deploy`: the end of `main`.
  - the nonce and computed-address step;
  - the acknowledgement;
  - the written configuration;
  - the confirmation and its exit code, as an `Outcome` value of a whole run
    over the answers.
- `Scenarios`: what one prompt does with particular answers.

## Model

| member | source | states |
|---|---|---|
| Text.Trim | script/preDeployMoonwellPrizeVault.js:168-178 | every answer `ask` returns has no whitespace at either end |
| Text.TrimRemovesOnlyWhitespace | script/preDeployMoonwellPrizeVault.js:172 | `trim` keeps a contiguous infix of the answer and removes only whitespace around it |
| Text.TrimIdempotent | script/preDeployMoonwellPrizeVault.js:172 | trimming an answer that is already trimmed changes nothing |
| Text.Split | script/preDeployMoonwellPrizeVault.js:112 | `split("0x")` yields at least one piece, and no piece contains the separator |
| Text.SplitSecondPiece | script/preDeployMoonwellPrizeVault.js:112 | a second piece exists exactly when the text contains "0x"; it runs from just after the first "0x" to the next "0x" or the end |
| Text.JoinSplit | script/preDeployMoonwellPrizeVault.js:112 | joining the pieces of a split with "0x" gives back the original text |
| Text.SplitJoin | script/preDeployMoonwellPrizeVault.js:112 | splitting a join of "0x"-free pieces gives back exactly those pieces |
| Address.IsAddressIff | script/preDeployMoonwellPrizeVault.js:151-161 | for text without surrounding whitespace, `isAddress` (BigInt accepts it, it starts with "0x", it is 42 long) holds exactly for "0x" plus 40 hex digits of either case |
| Address.HexAddressIsAddress | script/preDeployMoonwellPrizeVault.js:151-161 | every "0x" plus 40 hex digits passes `isAddress` |
| Address.ZeroAddressIsAddress | script/preDeployMoonwellPrizeVault.js:5 | the zero address passes `isAddress`, so the owner prompt needs its own check against it |
| Address.UntrimmedStringPasses | script/preDeployMoonwellPrizeVault.js:151-161 | on its own, `isAddress` is looser than the address shape: "0x", 39 hex digits and a trailing space pass it |
| Collector.Stored | script/preDeployMoonwellPrizeVault.js:72-90 | an accepted answer leaves a value the field's rule allows; a blank fee answer stores "0" |
| Collector.Answer | script/preDeployMoonwellPrizeVault.js:34-90 | for an unset field, one iteration sets it iff the rule accepts the answer, and then stores that answer's stored value; no other key changes |
| Collector.PromptLoop | script/preDeployMoonwellPrizeVault.js:34-90 | a set field reads no answer; otherwise the loop ends with a value valid for the field's rule, having read at least one answer, and changes no other key |
| Collector.FirstAccepted | script/preDeployMoonwellPrizeVault.js:34-90 | the index of the first accepted answer, with every earlier answer rejected; none when no answer is accepted |
| Collector.PromptLoopTakesFirstAccepted | script/preDeployMoonwellPrizeVault.js:34-90 | a loop on an unset field stores what the first accepted answer stores and leaves exactly the answers after it unread; it waits forever when none is accepted |
| Collector.PromptLoopExtend | script/preDeployMoonwellPrizeVault.js:34-90 | a loop that has ended is not affected by answers given after it |
| Collector.RecipientStep | script/preDeployMoonwellPrizeVault.js:94-105 | a set recipient is kept; with a fee of exactly "0" the zero address is stored and no answer is read; otherwise the stored recipient passes `isAddress` |
| Collector.RecipientMatchesReference | script/preDeployMoonwellPrizeVault.js:94-105 | the recipient loop equals the reference definition: keep, zero address for fee "0", or the first answer that passes `isAddress` |
| Collector.Collect | script/preDeployMoonwellPrizeVault.js:34-105 | when the prompts finish, all six fields are set, the key set gains exactly those six, fields already set and keys outside them are kept, and an unread suffix of the answers is left. A prompted asset is an address and a prompted owner is a non-zero address. A prompted recipient is the zero address when the fee is "0" and an address otherwise. A complete configuration reads nothing |
| Collector.CollectMatchesReference | script/preDeployMoonwellPrizeVault.js:34-105 | the six loops equal the chain of reference prompts: each unset field stores what its first accepted answer stores, and consumes the answers up to that one |
| Collector.CollectExtend | script/preDeployMoonwellPrizeVault.js:34-105 | answers given after the collection has finished leave its result alone and stay unread |
| Deploy.ComputedAddress | script/preDeployMoonwellPrizeVault.js:112 | the stored address is "0x" followed by the trimmed tool output between its first and second "0x" (or the end); with no "0x" in the output it is the text "0xundefined" |
| Deploy.ComputedAddressOfToolOutput | script/preDeployMoonwellPrizeVault.js:112 | when the trimmed tool output is a label without "0x" followed by a well-formed address, exactly that address is stored |
| Deploy.ComputedAddressWithoutSep | script/preDeployMoonwellPrizeVault.js:112 | tool output without "0x" stores "0xundefined" |
| Deploy.Written | script/preDeployMoonwellPrizeVault.js:126 | the written object is the parameters plus `prizeVaultComputedAddress` set to "placeholder"; every other key keeps its value |
| Deploy.AffirmativeIff | script/preDeployMoonwellPrizeVault.js:131 | the first character lower-cased is 'y' exactly when the response is non-empty and starts with 'y' or 'Y' |
| Deploy.ExitCode | script/preDeployMoonwellPrizeVault.js:129-136 | the exit code is 0 or 1, and it is 0 exactly when the response starts with 'y' or 'Y'; an empty response aborts |
| Deploy.AfterPrompts | script/preDeployMoonwellPrizeVault.js:110-136 | the run crashes exactly when the nonce query or the address query for nonce + 1 fails. Otherwise it waits at the warning with no answer left, at the confirmation with one left, and has exited with two or more. The written configuration is the parameters plus the computed address and the placeholder, and the exit code comes from the second remaining answer |
| Deploy.Run | script/preDeployMoonwellPrizeVault.js:29-136 | a whole run is still at a prompt exactly when the trimmed answers do not complete the six fields |
| Deploy.RunExtend | script/preDeployMoonwellPrizeVault.js:116-136 | once past the prompts, later answers only queue behind the unread ones |
| Deploy.WarningIgnoresAnswer | script/preDeployMoonwellPrizeVault.js:116-126 | whatever answer acknowledges the warning, the next state writes the configuration and waits for confirmation |
| Deploy.ConfirmationGate | script/preDeployMoonwellPrizeVault.js:126-136 | the configuration is written before the confirmation is read; the trimmed response alone decides the exit code, and the written configuration stays the same |
| Deploy.ExitIsFinal | script/preDeployMoonwellPrizeVault.js:129-136 | after the script has exited, further answers change nothing |
| Scenarios.AddressPromptTakes | script/preDeployMoonwellPrizeVault.js:34-41 | an unset address field takes a well-formed address at once and reads nothing more |
| Scenarios.TextPromptTakes | script/preDeployMoonwellPrizeVault.js:45-53 | an unset name or symbol takes the first non-empty answer at once |
| Scenarios.OwnerRejectsZeroAddress | script/preDeployMoonwellPrizeVault.js:57-68 | the zero address given as owner is read, discarded, and the owner is asked again |
| Scenarios.OwnerPromptTakes | script/preDeployMoonwellPrizeVault.js:57-68 | a well-formed non-zero owner is taken at once |
| Scenarios.BlankFeeStoresZero | script/preDeployMoonwellPrizeVault.js:74-75 | a blank fee answer stores "0" and ends the fee prompt |
| Scenarios.FeeAboveHundredRetries | script/preDeployMoonwellPrizeVault.js:78-80 | a fee above 100 is read, stores nothing, and the fee is asked again |
| Scenarios.RecipientAcceptsZeroAddress | script/preDeployMoonwellPrizeVault.js:94-105 | with a fee other than "0", the zero address is accepted as recipient |
| Scenarios.NonceFiveAsksForSix | script/preDeployMoonwellPrizeVault.js:110-112 | with nonce 5 the address is computed for nonce 6, and a failed query for nonce 6 crashes the run |

## Left out

- Non-string JSON values are not modelled. The configuration is
  `map<string, string>`, and a field counts as set when it is a non-empty
  string. In the script a field counts as set when it is JavaScript-truthy:
  a number 0, `false` or `null` counts as unset, and any other number or
  `true` counts as set. Line 95 compares the fee to "0" with `===`, so a
  numeric fee 0 coming from the file could never give the zero-address
  branch. It would not reach that line anyway, because the fee prompt treats
  it as unset.
- The fee conversion: `parseFloat` and `Math.floor(percent * 1e7)` (floating
  point) are left abstract as two functions of the answer (the `FeeScale` datatype). Whatever they
  return is what the model stores. The model therefore does not fix which
  texts exceed 100 and does not reject anything the script accepts:
  - a non-numeric answer gives NaN, which is not above 100 and is stored as
    the text "NaN";
  - a negative percentage is stored as a negative number.

  The `catch` around the conversion cannot fire, because `parseFloat` never
  throws. It is not modelled.
- Scenarios.RecipientAcceptsZeroAddress: the script does not forbid the zero
  address as fee recipient when the fee is not "0". The model follows the
  code rather than the intended cross-field rule (a non-zero fee with a real
  recipient).
- The `cast` subprocess, the `SCRIPT_SENDER` environment
  variable and the `parseInt` of the nonce are left out. The nonce is a given
  `Option<int>` and the `compute-address` output a given function of the
  nonce, where None stands for a rejected call (the `Cast` datatype). The CREATE address
  derivation itself belongs to the external tool.
- Reading `config/ascii.txt` and the banner, the `CONFIG` file,
  `JSON.parse`, the `JSON.stringify` formatting of `config/deploy.json`,
  console messages, `rl.close` and readline's line editing are I/O. The
  loaded configuration is a parameter, and the written file is the
  `Outcome`'s `written` map. `process.exit` is the `Exited` outcome.
- Values already present in the loaded configuration are not validated,
  because the script does not validate them either. Collector.Collect keeps
  them unchanged.
- `prizeVaultComputedAddress` is only ever the text "placeholder"; the
  script computes no prize vault address.
- Text.LowerChar lower-cases ASCII letters only. The one use is the
  comparison with 'y', which no non-ASCII character lower-cases to.
- Strings are sequences of Dafny `char` (Unicode scalar values), not UTF-16
  code units. `isAddress`'s length 42 therefore counts characters, and the
  two agree for the hex-shaped texts that matter here.
