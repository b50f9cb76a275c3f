/**
 Sending a payment and reading a balance (packages/pay/src/payment.ts). Key
 derivation, the transaction builder, the signer and the network are functions
 and values the caller gives; the builder is not trusted.
 */
module Payment {
  import opened Results
  import opened Coins
  import opened CoinSelection

  // --------------------------------------------------------------- the recipients

  datatype Recipient = Recipient(to: string, amount: int)

  const MAX_RECIPIENTS := 50

  /** `to` and `amountSat`, or `recipients`. */
  datatype Request = Request(to: Option<string>, amount: Option<int>, recipients: Option<seq<Recipient>>)

  datatype PaymentError =
    | BothFormsOrNeither | NoRecipient | TooManyRecipients | AmountNotPositive | NamedTwice(to: string)
    | BadRate | BadDepth | BadCount | DiscoveryFailed | SelectionFailed(reason: SelectError) | ForeignChange
    | BuilderFailed | WrongFee | UnknownInput(outpoint: Outpoint) | ForeignInput(address: string) | BroadcastFailed

  predicate Shorthand(request: Request) {
    request.to.Some? || request.amount.Some?
  }

  /** The recipients the request names, in either form. */
  function Named(request: Request): seq<Recipient> {
    if request.recipients.Some? then request.recipients.value
    else [Recipient(if request.to.Some? then request.to.value else "", if request.amount.Some?
        then request.amount.value else 0)]
  }

  predicate DistinctPayees(recipients: seq<Recipient>) {
    forall i, j :: 0 <= i < j < |recipients| ==> recipients[i].to != recipients[j].to
  }

  predicate AllPositive(recipients: seq<Recipient>) {
    forall i :: 0 <= i < |recipients| ==> recipients[i].amount > 0
  }

  /** What a payment may ask for. */
  predicate IsPayable(request: Request) {
    && Shorthand(request) == request.recipients.None?
    && 1 <= |Named(request)| <= MAX_RECIPIENTS
    && AllPositive(Named(request)) && DistinctPayees(Named(request))
  }

  /** Why a request is not payable. */
  predicate Refuses(request: Request, error: PaymentError) {
    var recipients := Named(request);
    match error
    case BothFormsOrNeither => Shorthand(request) == request.recipients.Some?
    case NoRecipient => |recipients| == 0
    case TooManyRecipients => |recipients| > MAX_RECIPIENTS
    case AmountNotPositive => !AllPositive(recipients)
    case NamedTwice(to) => exists i, j :: 0 <= i < j < |recipients| && recipients[i].to == to && recipients[j].to == to
    case _ => false
  }

  predicate NamedBefore(recipients: seq<Recipient>, i: nat, to: string)
    requires i <= |recipients|
  {
    exists j :: 0 <= j < i && recipients[j].to == to
  }

  lemma {:induction false} BeforeNext(recipients: seq<Recipient>, i: nat)
    requires i < |recipients|
    ensures forall to :: NamedBefore(recipients, i + 1, to) <==>
      NamedBefore(recipients, i, to)
      || to == recipients[i].to
    ensures recipients[..i + 1] == recipients[..i] + [recipients[i]]
  {
    assert NamedBefore(recipients, i + 1, recipients[i].to);
  }

  method ResolveRecipients(request: Request) returns (resolved: Result<seq<Recipient>, PaymentError>)
    ensures resolved.Ok? <==> IsPayable(request)
    ensures resolved.Ok? ==> resolved.value == Named(request)
    ensures resolved.Err? ==> Refuses(request, resolved.error)
  {
    if Shorthand(request) == request.recipients.Some? {
      return Err(BothFormsOrNeither);
    }
    var recipients := Named(request);
    if |recipients| == 0 {
      return Err(NoRecipient);
    }
    if |recipients| > MAX_RECIPIENTS {
      return Err(TooManyRecipients);
    }
    var seen: set<string> := {};
    for i := 0 to |recipients|
      invariant forall j :: 0 <= j < i ==> recipients[j].to in seen
      invariant forall to :: to in seen ==> NamedBefore(recipients, i, to)
      invariant AllPositive(recipients[..i]) && DistinctPayees(recipients[..i])
    {
      BeforeNext(recipients, i);
      if recipients[i].amount <= 0 {
        return Err(AmountNotPositive);
      }
      if recipients[i].to in seen {
        return Err(NamedTwice(recipients[i].to));
      }
      seen := seen + {recipients[i].to};
    }
    assert recipients[..|recipients|] == recipients;
    return Ok(recipients);
  }

  function Asked(recipients: seq<Recipient>): int {
    if recipients == [] then 0 else recipients[0].amount + Asked(recipients[1..])
  }

  lemma {:induction false} AskedPositive(recipients: seq<Recipient>)
    requires AllPositive(recipients)
    ensures Asked(recipients) >= |recipients|
  {
    if recipients != [] {
      AskedPositive(recipients[1..]);
    }
  }

  // ------------------------------------------------------------------ spendable coins

  /** `None` is a depth that is refused. */
  function Depth(requested: Option<int>): Option<nat> {
    if requested.None? then Some(1) else if requested.value < 1 then None else Some(requested.value)
  }

  function Deep(coins: seq<Utxo>, tip: int, depth: int): seq<Utxo> {
    if coins == [] then []
    else (if tip - coins[0].height + 1 >= depth then [coins[0]] else []) + Deep(coins[1..], tip, depth)
  }

  /** Depth 1 is `confirmed`, and asks for no chain tip. */
  function Spendable(discovered: seq<Utxo>, depth: nat, tip: int): seq<Utxo> {
    if depth <= 1 then Confirmed(discovered) else Deep(Confirmed(discovered), tip, depth)
  }

  lemma {:induction false} DeepMembers(coins: seq<Utxo>, tip: int, depth: int)
    ensures forall c :: c in Deep(coins, tip, depth) <==> c in coins && tip - c.height + 1 >= depth
  {
    if coins != [] {
      DeepMembers(coins[1..], tip, depth);
    }
  }

  /** Only confirmed coins are spent, as deep as was asked. */
  lemma {:induction false} SpendableMembers(discovered: seq<Utxo>, depth: nat, tip: int)
    ensures forall c :: c in Spendable(discovered, depth, tip) <==>
      c in discovered && c.confirmed && (depth > 1 ==> tip - c.height + 1 >= depth)
  {
    ConfirmedMembers(discovered);
    DeepMembers(Confirmed(discovered), tip, depth);
  }

  // -------------------------------------------------------------------- transactions

  datatype Outpoint = Outpoint(txid: string, vout: nat)

  datatype Output = Output(address: string, value: nat)

  datatype Input = Input(outpoint: Outpoint, signature: Option<Signature>)

  datatype Transaction = Transaction(inputs: seq<Outpoint>, outputs: seq<Output>)

  type PrivateKey = string

  /** What the signer made, of which input, with which key. */
  datatype Signature = Signature(transaction: Transaction, index: nat, script: string, key: PrivateKey)

  function OutpointOf(u: Utxo): Outpoint {
    Outpoint(u.txid, u.vout)
  }

  function Paid(outputs: seq<Output>): nat {
    if outputs == [] then 0 else outputs[0].value + Paid(outputs[1..])
  }

  /** `feePaidBy`: what selection put in less what the transaction pays out. */
  function FeePaidBy(transaction: Transaction, selection: Selection): Option<int> {
    var actual := Total(selection.selected) - Paid(transaction.outputs);
    if actual != selection.fee then None else Some(actual)
  }

  /** The first selected coin of an outpoint. */
  function FindCoin(selected: seq<Utxo>, outpoint: Outpoint): (found: Option<Utxo>)
    ensures found.Some? ==> found.value in selected && OutpointOf(found.value) == outpoint
    ensures found.None? ==> forall u :: u in selected ==> OutpointOf(u) != outpoint
  {
    if selected == [] then None
    else if OutpointOf(selected[0]) == outpoint then Some(selected[0])
    else FindCoin(selected[1..], outpoint)
  }

  /** The derived keys of a wallet, until they are wiped. */
  class KeyManager {
    var keys: map<string, PrivateKey>
    var nextChange: string

    constructor (keys: map<string, PrivateKey>, nextChange: string)
      ensures this.keys == keys && this.nextChange == nextChange
    {
      this.keys, this.nextChange := keys, nextChange;
    }

    predicate Owns(address: string)
      reads this
    {
      address in keys
    }

    method Wipe()
      modifies this
      ensures keys == map[]
    {
      keys := map[];
    }
  }

  /** The key and script an input must be signed with, if the wallet can sign it. */
  function SignedInput(transaction: Transaction, i: nat, selected: seq<Utxo>, keys: map<string,
      PrivateKey>): Option<Input>
    requires i < |transaction.inputs|
  {
    var coin := FindCoin(selected, transaction.inputs[i]);
    if coin.None? || coin.value.address !in keys then None
    else Some(Input(transaction.inputs[i],
        Some(Signature(transaction, i, coin.value.script, keys[coin.value.address]))))
  }

  /**
   `signEveryInput`: in place, each input by its own outpoint. It fails exactly when
   an input is not a selected coin or not the wallet's.
   */
  method SignEveryInput(transaction: Transaction, inputs: array<Input>, selected: seq<Utxo>, keyManager: KeyManager)
      returns (error: Option<PaymentError>)
    requires inputs.Length == |transaction.inputs|
    requires forall i :: 0 <= i < inputs.Length ==> inputs[i] == Input(transaction.inputs[i], None)
    modifies inputs
    ensures error.None? <==> forall i ::
      0 <= i < inputs.Length
      ==> SignedInput(transaction, i, selected, keyManager.keys).Some?
    ensures error.None? ==> forall i ::
      0 <= i < inputs.Length
      ==> SignedInput(transaction, i, selected, keyManager.keys) == Some(inputs[i])
  {
    for i := 0 to inputs.Length
      invariant forall k :: 0 <= k < i ==> SignedInput(transaction, k, selected, keyManager.keys) == Some(inputs[k])
      invariant forall k :: i <= k < inputs.Length ==> inputs[k] == Input(transaction.inputs[k], None)
    {
      assert inputs[i] == Input(transaction.inputs[i], None);
      var coin := FindCoin(selected, inputs[i].outpoint);
      assert SignedInput(transaction, i, selected, keyManager.keys).Some? <==>
        coin.Some?
        && keyManager.Owns(coin.value.address);
      if coin.None? {
        return Some(UnknownInput(inputs[i].outpoint));
      }
      if !keyManager.Owns(coin.value.address) {
        return Some(ForeignInput(coin.value.address));
      }
      inputs[i] := inputs[i].(signature :=
          Some(Signature(transaction, i, coin.value.script, keyManager.keys[coin.value.address])));
    }
    return None;
  }

  // --------------------------------------------------------------------- the payment

  /** What a payment finds and is given: coins, depth, tip, rate, dust, the wallet's keys. */
  datatype Wallet = Wallet(
    keys: map<string, PrivateKey>, nextChange: string, discovered: Option<seq<Utxo>>, depth: Option<int>, tip: int,
    feePerByte: Option<real>, dust: nat)

  /** What the builder is asked for. */
  datatype BuildRequest = BuildRequest(coins: seq<Utxo>, recipients: seq<Recipient>, changeAddress: string, rate: nat)

  /** What left for the network: the transaction, its signed inputs, and the quoted selection. */
  datatype Broadcast = Broadcast(transaction: Transaction, inputs: seq<Input>, selection: Selection)

  /** `resolveFeePerByte`: rounded up to whole units, or refused. */
  function Rate(feePerByte: Option<real>): Option<nat> {
    if feePerByte.None? || feePerByte.value <= 0.0 then None else Some(-((-feePerByte.value).Floor))
  }

  /** The fee of a payment by how many inputs it spends. */
  function FeeOf(request: Request, wallet: Wallet): nat -> nat
    requires Rate(wallet.feePerByte).Some?
  {
    FeeAt(Rate(wallet.feePerByte).value, |Named(request)|)
  }

  /** What the wallet can pay at all: the request is payable and some choice of its spendable coins covers it. */
  ghost predicate CanAfford(request: Request, wallet: Wallet, fee: nat -> nat) {
    && IsPayable(request) && wallet.discovered.Some? && Depth(wallet.depth).Some?
    && var spendable := Spendable(wallet.discovered.value, Depth(wallet.depth).value, wallet.tip);
    && Asked(Named(request)) > 0
    && CanPay(Collect(Confirmed(spendable)), Asked(Named(request)), fee)
  }

  lemma {:induction false} CanAffordIff(request: Request, wallet: Wallet, fee: nat -> nat, spendable: seq<Utxo>)
    requires IsPayable(request) && wallet.discovered.Some? && Depth(wallet.depth).Some? && Asked(Named(request)) > 0
    requires spendable == Spendable(wallet.discovered.value, Depth(wallet.depth).value, wallet.tip)
    ensures CanAfford(request, wallet, fee) <==>
      CanPay(Collect(Confirmed(spendable)), Asked(Named(request)), fee)
  {
  }

  /** Whether what the builder makes of a selection passes every check. */
  ghost predicate PassesChecks(recipients: seq<Recipient>, wallet: Wallet, rate: nat,
      builder: BuildRequest -> Option<Transaction>, selection: Selection) {
    && wallet.nextChange in wallet.keys
    && var built := builder(BuildRequest(selection.selected, recipients, wallet.nextChange, rate));
    && built.Some? && FeePaidBy(built.value, selection).Some?
    && forall i :: 0 <= i < |built.value.inputs| ==> SignedInput(built.value, i, selection.selected, wallet.keys).Some?
  }

  /** What the builder made, its inputs signed, each by the selected coin of its outpoint. */
  ghost predicate IsSigned(sent: Broadcast, recipients: seq<Recipient>, wallet: Wallet, rate: nat,
      builder: BuildRequest -> Option<Transaction>, selection: Selection) {
    && sent.selection == selection && wallet.nextChange in wallet.keys
    && builder(BuildRequest(selection.selected, recipients, wallet.nextChange, rate)) == Some(sent.transaction)
    && |sent.inputs| == |sent.transaction.inputs|
    && (forall i ::
      0 <= i < |sent.inputs|
      ==> SignedInput(sent.transaction, i, selection.selected, wallet.keys) == Some(sent.inputs[i]))
    && Total(selection.selected) - Paid(sent.transaction.outputs) == selection.fee
  }

  /** The one selection of the request, and what it promises. */
  ghost predicate IsSelectionOf(request: Request, wallet: Wallet, fee: nat -> nat, selection: Selection)
    requires CanAfford(request, wallet, fee)
  {
    var spendable := Spendable(wallet.discovered.value, Depth(wallet.depth).value, wallet.tip);
    && IsLargestFirst(selection, spendable, Asked(Named(request)), fee, wallet.dust)
    && IsSelection(selection, spendable, Asked(Named(request)), fee, wallet.dust)
  }

  /**
   What a broadcast promises, whatever the builder returned: the selection is one for
   the amount asked, every input is a selected coin signed with that coin's own key,
   and the outputs leave exactly the quoted fee of what was selected.
   */
  ghost predicate IsSound(sent: Broadcast, request: Request, wallet: Wallet, rate: nat, fee: nat -> nat,
      builder: BuildRequest -> Option<Transaction>) {
    && CanAfford(request, wallet, fee)
    && IsSelectionOf(request, wallet, fee, sent.selection)
    && IsSigned(sent, Named(request), wallet, rate, builder, sent.selection)
  }

  /** Nothing is sent only when the wallet cannot pay, or its selection does not pass the checks. */
  ghost predicate IsHeldBack(request: Request, wallet: Wallet, rate: nat, fee: nat -> nat,
      builder: BuildRequest -> Option<Transaction>) {
    CanAfford(request, wallet, fee) ==>
      forall s :: IsSelectionOf(request, wallet, fee, s) ==> !PassesChecks(Named(request), wallet, rate, builder, s)
  }

  lemma {:induction false} HeldBack(request: Request, wallet: Wallet, rate: nat, fee: nat -> nat,
      builder: BuildRequest -> Option<Transaction>, selection: Selection)
    requires CanAfford(request, wallet, fee) && IsSelectionOf(request, wallet, fee, selection)
    requires !PassesChecks(Named(request), wallet, rate, builder, selection)
    ensures IsHeldBack(request, wallet, rate, fee, builder)
  {
    forall s | IsSelectionOf(request, wallet, fee, s) ensures s == selection {
      SelectionIsUnique(s, selection, Spendable(wallet.discovered.value, Depth(wallet.depth).value, wallet.tip),
          Asked(Named(request)), fee, wallet.dust);
    }
  }

  method SendPayment(request: Request, wallet: Wallet, builder: BuildRequest -> Option<Transaction>,
      network: Broadcast -> Option<string>)
    returns (result: Result<(string, int), PaymentError>, sent: Option<Broadcast>, keyManager: KeyManager?)
    ensures keyManager != null ==> fresh(keyManager) && keyManager.keys == map[]
    ensures result.Ok? ==>
      sent.Some? && network(sent.value) == Some(result.value.0)
      && result.value.1 == sent.value.selection.fee
    ensures sent.Some? ==>
      Rate(wallet.feePerByte).Some?
      && IsSound(sent.value, request, wallet, Rate(wallet.feePerByte).value, FeeOf(request, wallet), builder)
    ensures sent.Some? ==>
      Paid(sent.value.transaction.outputs) == Asked(Named(request)) + sent.value.selection.change
    ensures sent.None? && Rate(wallet.feePerByte).Some?
      ==> IsHeldBack(request, wallet, Rate(wallet.feePerByte).value, FeeOf(request, wallet), builder)
    ensures sent.Some? && network(sent.value).Some? ==> result.Ok?
  {
    sent, keyManager := None, null;
    var resolved := ResolveRecipients(request);
    if resolved.Err? {
      return Err(resolved.error), sent, keyManager;
    }
    var rate := Rate(wallet.feePerByte);
    if rate.None? {
      return Err(BadRate), sent, keyManager;
    }
    keyManager := new KeyManager(wallet.keys, wallet.nextChange);
    result, sent := SendWith(request, resolved.value, wallet, rate.value, builder, network, keyManager);
    keyManager.Wipe();
    if sent.Some? {
      OutputsSum(sent.value, request, wallet, rate.value, FeeOf(request, wallet), builder);
    }
  }

  /** What runs between the derivation of the keys and their wiping. */
  method SendWith(request: Request, recipients: seq<Recipient>, wallet: Wallet, rate: nat,
      builder: BuildRequest -> Option<Transaction>, network: Broadcast -> Option<string>, keyManager: KeyManager)
    returns (result: Result<(string, int), PaymentError>, sent: Option<Broadcast>)
    requires IsPayable(request) && recipients == Named(request)
    requires keyManager.keys == wallet.keys && keyManager.nextChange == wallet.nextChange
    ensures result.Ok? ==>
      sent.Some? && network(sent.value) == Some(result.value.0)
      && result.value.1 == sent.value.selection.fee
    ensures sent.Some? ==> IsSound(sent.value, request, wallet, rate, FeeAt(rate, |recipients|), builder)
    ensures sent.None? ==> IsHeldBack(request, wallet, rate, FeeAt(rate, |recipients|), builder)
    ensures sent.Some? && network(sent.value).Some? ==> result.Ok?
  {
    sent := None;
    var selection := SelectFor(request, recipients, wallet, rate);
    if selection.Err? {
      return Err(selection.error), sent;
    }
    var signed := BuildAndSign(recipients, wallet, rate, builder, selection.value, keyManager);
    if signed.Err? {
      HeldBack(request, wallet, rate, FeeAt(rate, |recipients|), builder, selection.value);
      return Err(signed.error), sent;
    }
    sent := Some(signed.value);
    var txid := network(signed.value);
    if txid.None? {
      return Err(BroadcastFailed), sent;
    }
    return Ok((txid.value, signed.value.selection.fee)), sent;
  }

  /** Discovery, the depth, and the selection. */
  method SelectFor(request: Request, recipients: seq<Recipient>, wallet: Wallet, rate: nat)
      returns (selection: Result<Selection, PaymentError>)
    requires IsPayable(request) && recipients == Named(request)
    ensures selection.Ok? ==>
      CanAfford(request, wallet, FeeAt(rate, |recipients|))
      && IsSelectionOf(request, wallet, FeeAt(rate, |recipients|), selection.value)
    ensures selection.Err? ==> !CanAfford(request, wallet, FeeAt(rate, |recipients|))
  {
    var depth := Depth(wallet.depth);
    if wallet.discovered.None? {
      return Err(DiscoveryFailed);
    }
    if depth.None? {
      return Err(BadDepth);
    }
    var spendable := Spendable(wallet.discovered.value, depth.value, wallet.tip);
    AskedPositive(recipients);
    CanAffordIff(request, wallet, FeeAt(rate, |recipients|), spendable);
    var selected := Select(spendable, Asked(recipients), rate, |recipients|, wallet.dust);
    if selected.Err? {
      return Err(SelectionFailed(selected.error));
    }
    return Ok(selected.value);
  }

  /** The builder's transaction, if it pays the quoted fee and every input can be signed. */
  method BuildAndSign(recipients: seq<Recipient>, wallet: Wallet, rate: nat,
      builder: BuildRequest -> Option<Transaction>, selection: Selection, keyManager: KeyManager)
    returns (signed: Result<Broadcast, PaymentError>)
    requires keyManager.keys == wallet.keys && keyManager.nextChange == wallet.nextChange
    ensures signed.Ok? <==> PassesChecks(recipients, wallet, rate, builder, selection)
    ensures signed.Ok? ==> IsSigned(signed.value, recipients, wallet, rate, builder, selection)
  {
    var changeAddress := keyManager.nextChange;
    if !keyManager.Owns(changeAddress) {
      return Err(ForeignChange);
    }
    var built := builder(BuildRequest(selection.selected, recipients, changeAddress, rate));
    if built.None? {
      return Err(BuilderFailed);
    }
    var transaction := built.value;
    var fee := FeePaidBy(transaction, selection);
    if fee.None? {
      return Err(WrongFee);
    }
    var inputs := new Input[|transaction.inputs|](i
      requires 0 <= i < |transaction.inputs| => Input(transaction.inputs[i], None));
    var error := SignEveryInput(transaction, inputs, selection.selected, keyManager);
    if error.Some? {
      return Err(error.value);
    }
    return Ok(Broadcast(transaction, inputs[..], selection));
  }

  // ---------------------------------------------------------- what the recipients get

  /** The outputs are worth what was asked for and the change. */
  lemma {:induction false} OutputsSum(sent: Broadcast, request: Request, wallet: Wallet, rate: nat, fee: nat -> nat,
                                      builder: BuildRequest -> Option<Transaction>)
    requires IsSound(sent, request, wallet, rate, fee, builder)
    ensures Paid(sent.transaction.outputs) == Asked(Named(request)) + sent.selection.change
  {
    var spendable := Spendable(wallet.discovered.value, Depth(wallet.depth).value, wallet.tip);
    assert IsSelection(sent.selection, spendable, Asked(Named(request)), fee, wallet.dust);
  }

  function PaidTo(outputs: seq<Output>, address: string): nat {
    if outputs == [] then 0
    else (if outputs[0].address == address then outputs[0].value else 0) + PaidTo(outputs[1..], address)
  }

  predicate IsPayee(recipients: seq<Recipient>, address: string) {
    exists i :: 0 <= i < |recipients| && recipients[i].to == address
  }

  /** What outputs pay to addresses that are no recipient's, the change address included. */
  function Elsewhere(outputs: seq<Output>, recipients: seq<Recipient>): nat {
    if outputs == [] then 0
    else (if IsPayee(recipients, outputs[0].address) then 0 else outputs[0].value) + Elsewhere(outputs[1..], recipients)
  }

  function Received(outputs: seq<Output>, recipients: seq<Recipient>): nat {
    if recipients == [] then 0 else PaidTo(outputs, recipients[0].to) + Received(outputs, recipients[1..])
  }

  function Excess(x: int, y: int): nat {
    if x > y then x - y else 0
  }

  /** What recipients get beyond their amounts. */
  function Overpaid(outputs: seq<Output>, recipients: seq<Recipient>): nat {
    if recipients == [] then 0
    else Excess(PaidTo(outputs, recipients[0].to), recipients[0].amount) + Overpaid(outputs, recipients[1..])
  }

  /** What recipients miss of their amounts. */
  function Underpaid(outputs: seq<Output>, recipients: seq<Recipient>): nat {
    if recipients == [] then 0
    else Excess(recipients[0].amount, PaidTo(outputs, recipients[0].to)) + Underpaid(outputs, recipients[1..])
  }

  predicate AllPaid(outputs: seq<Output>, recipients: seq<Recipient>) {
    forall i :: 0 <= i < |recipients| ==> PaidTo(outputs, recipients[i].to) >= recipients[i].amount
  }

  predicate AllPaidExactly(outputs: seq<Output>, recipients: seq<Recipient>) {
    forall i :: 0 <= i < |recipients| ==> PaidTo(outputs, recipients[i].to) == recipients[i].amount
  }

  /** An output is received by the one recipient it names, if it names one. */
  lemma {:induction false} ReceivedCons(outputs: seq<Output>, recipients: seq<Recipient>)
    requires outputs != [] && DistinctPayees(recipients)
    ensures Received(outputs, recipients) == Received(outputs[1..], recipients)
      + if IsPayee(recipients, outputs[0].address) then outputs[0].value else 0
  {
    if recipients != [] {
      var first, rest := recipients[0], recipients[1..];
      ReceivedCons(outputs, rest);
      PayeeCons(recipients, outputs[0].address);
    }
  }

  lemma {:induction false} PayeeCons(recipients: seq<Recipient>, address: string)
    requires recipients != [] && DistinctPayees(recipients)
    ensures IsPayee(recipients, address) <==> recipients[0].to == address || IsPayee(recipients[1..], address)
    ensures recipients[0].to == address ==> !IsPayee(recipients[1..], address)
  {
    if i :| 0 <= i < |recipients| && recipients[i].to == address {
      assert i > 0 ==> recipients[1..][i - 1].to == address;
    }
    if i :| 0 <= i < |recipients[1..]| && recipients[1..][i].to == address {
      assert recipients[i + 1].to == address;
    }
  }

  /** Every output is paid to a recipient or elsewhere. */
  lemma {:induction false} PaidSomewhere(outputs: seq<Output>, recipients: seq<Recipient>)
    requires DistinctPayees(recipients)
    ensures Paid(outputs) == Received(outputs, recipients) + Elsewhere(outputs, recipients)
  {
    if outputs == [] {
      NothingReceived(recipients);
    } else {
      PaidSomewhere(outputs[1..], recipients);
      ReceivedCons(outputs, recipients);
    }
  }

  lemma {:induction false} NothingReceived(recipients: seq<Recipient>)
    ensures Received([], recipients) == 0
  {
    if recipients != [] {
      NothingReceived(recipients[1..]);
    }
  }

  lemma {:induction false} ReceivedIs(outputs: seq<Output>, recipients: seq<Recipient>)
    ensures Received(outputs, recipients) + Underpaid(outputs, recipients)
      == Asked(recipients) + Overpaid(outputs, recipients)
  {
    if recipients != [] {
      ReceivedIs(outputs, recipients[1..]);
    }
  }

  lemma {:induction false} PaidIff(outputs: seq<Output>, recipients: seq<Recipient>)
    ensures Underpaid(outputs, recipients) == 0 <==> AllPaid(outputs, recipients)
    ensures Underpaid(outputs, recipients) == Overpaid(outputs, recipients) == 0
      <==> AllPaidExactly(outputs, recipients)
  {
    if recipients != [] {
      PaidIff(outputs, recipients[1..]);
      assert forall i :: 1 <= i < |recipients| ==> recipients[i] == recipients[1..][i - 1];
    }
  }

  lemma {:induction false} OneRecipient(outputs: seq<Output>, recipients: seq<Recipient>)
    requires |recipients| == 1
    ensures Underpaid(outputs, recipients) == 0 || Overpaid(outputs, recipients) == 0
  {
    assert recipients[1..] == [];
  }

  /**
   Nothing compares the outputs with the recipients, so what a broadcast pays them
   follows from the worth of the outputs alone: every recipient gets at least its
   amount exactly when what goes elsewhere and beyond the amounts is the change; each
   gets exactly its amount when, besides, none gets more; and a single recipient gets
   its amount exactly when no more than the change goes elsewhere.
   */
  lemma {:induction false} RecipientsArePaidIff(
      sent: Broadcast, request: Request, wallet: Wallet, rate: nat, fee: nat -> nat,
      builder: BuildRequest -> Option<Transaction>)
    requires IsSound(sent, request, wallet, rate, fee, builder)
    ensures
      var outputs, recipients, change := sent.transaction.outputs, Named(request), sent.selection.change;
      var elsewhere, over := Elsewhere(outputs, recipients), Overpaid(outputs, recipients);
      && elsewhere + over == change + Underpaid(outputs, recipients)
      && (AllPaid(outputs, recipients) <==> elsewhere + over == change)
      && (AllPaidExactly(outputs, recipients) <==> over == 0 && elsewhere == change)
      && (|recipients| == 1 ==> (AllPaid(outputs, recipients) <==> elsewhere <= change))
  {
    var outputs, recipients := sent.transaction.outputs, Named(request);
    OutputsSum(sent, request, wallet, rate, fee, builder);
    PaidSomewhere(outputs, recipients);
    ReceivedIs(outputs, recipients);
    PaidIff(outputs, recipients);
    if |recipients| == 1 {
      OneRecipient(outputs, recipients);
    }
  }

  // ------------------------------------------------- the fee the network really takes

  /** What an outpoint is worth among some coins. */
  function Worth(coins: seq<Utxo>, outpoint: Outpoint): nat {
    var coin := FindCoin(coins, outpoint);
    if coin.Some? then coin.value.value else 0
  }

  /** What the inputs of a transaction are worth, each by the coin it spends. */
  function Spent(inputs: seq<Outpoint>, coins: seq<Utxo>): nat {
    if inputs == [] then 0 else Worth(coins, inputs[0]) + Spent(inputs[1..], coins)
  }

  /** The coins that no input spends. */
  function Unspent(inputs: seq<Outpoint>, coins: seq<Utxo>): seq<Utxo> {
    if coins == [] then []
    else if OutpointOf(coins[0]) in inputs then Unspent(inputs, coins[1..])
    else [coins[0]] + Unspent(inputs, coins[1..])
  }

  /** The inputs that come again further on. */
  function Repeats(inputs: seq<Outpoint>): seq<Outpoint> {
    if inputs == [] then []
    else if inputs[0] in inputs[1..] then [inputs[0]] + Repeats(inputs[1..])
    else Repeats(inputs[1..])
  }

  predicate DistinctInputs(inputs: seq<Outpoint>) {
    forall i, j :: 0 <= i < j < |inputs| ==> inputs[i] != inputs[j]
  }

  lemma {:induction false} NoRepeats(inputs: seq<Outpoint>)
    requires DistinctInputs(inputs)
    ensures Repeats(inputs) == []
  {
    if inputs != [] {
      NoRepeats(inputs[1..]);
    }
  }

  predicate AllFound(inputs: seq<Outpoint>, coins: seq<Utxo>) {
    forall i :: 0 <= i < |inputs| ==> FindCoin(coins, inputs[i]).Some?
  }

  lemma {:induction false} UnspentSame(inputs: seq<Outpoint>, more: seq<Outpoint>, coins: seq<Utxo>)
    requires forall i :: 0 <= i < |coins| ==> (OutpointOf(coins[i]) in inputs <==> OutpointOf(coins[i]) in more)
    ensures Unspent(inputs, coins) == Unspent(more, coins)
  {
    if coins != [] {
      UnspentSame(inputs, more, coins[1..]);
    }
  }

  lemma {:induction false} TotalCons(u: Utxo, rest: seq<Utxo>)
    ensures Total([u] + rest) == u.value + Total(rest)
  {
    assert ([u] + rest)[1..] == rest;
  }

  /** One more outpoint spent is one coin less that is not. */
  lemma {:induction false} UnspentOneLess(outpoint: Outpoint, rest: seq<Outpoint>, inputs: seq<Outpoint>,
      coins: seq<Utxo>)
    requires Distinct(coins) && inputs == [outpoint] + rest && outpoint !in rest && FindCoin(coins, outpoint).Some?
    ensures Total(Unspent(rest, coins)) == Worth(coins, outpoint) + Total(Unspent(inputs, coins))
  {
    var u := coins[0];
    if OutpointOf(u) == outpoint {
      forall i | 0 <= i < |coins[1..]| ensures OutpointOf(coins[1..][i]) != outpoint {
        assert Key(coins[i + 1]) != Key(u);
      }
      UnspentSame(rest, inputs, coins[1..]);
      TotalCons(u, Unspent(rest, coins[1..]));
    } else {
      UnspentOneLess(outpoint, rest, inputs, coins[1..]);
      if OutpointOf(u) !in rest {
        TotalCons(u, Unspent(rest, coins[1..]));
        TotalCons(u, Unspent(inputs, coins[1..]));
      }
    }
  }

  /** Inputs are worth all coins of the list, less those they leave, and what they name again. */
  lemma {:induction false} SpentAndUnspent(inputs: seq<Outpoint>, coins: seq<Utxo>)
    requires Distinct(coins) && AllFound(inputs, coins)
    ensures Spent(inputs, coins) + Total(Unspent(inputs, coins)) == Total(coins) + Spent(Repeats(inputs), coins)
  {
    if inputs == [] {
      NothingSpent(coins);
    } else {
      var first, rest := inputs[0], inputs[1..];
      assert inputs == [first] + rest;
      SpentAndUnspent(rest, coins);
      if first in rest {
        UnspentSame(rest, inputs, coins);
        assert ([first] + Repeats(rest))[1..] == Repeats(rest);
      } else {
        UnspentOneLess(first, rest, inputs, coins);
      }
    }
  }

  lemma {:induction false} NothingSpent(coins: seq<Utxo>)
    ensures Unspent([], coins) == coins
  {
    if coins != [] {
      NothingSpent(coins[1..]);
    }
  }

  lemma {:induction false} TotalZero(inputs: seq<Outpoint>, coins: seq<Utxo>)
    ensures Total(Unspent(inputs, coins)) == 0 <==>
      forall i :: 0 <= i < |coins| ==> OutpointOf(coins[i]) in inputs || coins[i].value == 0
  {
    if coins != [] {
      TotalZero(inputs, coins[1..]);
      if OutpointOf(coins[0]) !in inputs {
        TotalCons(coins[0], Unspent(inputs, coins[1..]));
      }
      assert forall i :: 1 <= i < |coins| ==> coins[i] == coins[1..][i - 1];
    }
  }

  /** What the network takes of a transaction that spends some of the coins. */
  function Taken(transaction: Transaction, coins: seq<Utxo>): int {
    Spent(transaction.inputs, coins) - Paid(transaction.outputs)
  }

  lemma {:induction false} SoundInputs(sent: Broadcast, request: Request, wallet: Wallet, rate: nat, fee: nat -> nat,
      builder: BuildRequest -> Option<Transaction>)
    requires IsSound(sent, request, wallet, rate, fee, builder)
    ensures Distinct(sent.selection.selected) && AllFound(sent.transaction.inputs, sent.selection.selected)
    ensures Total(sent.selection.selected) - Paid(sent.transaction.outputs) == sent.selection.fee
  {
    forall i | 0 <= i < |sent.transaction.inputs|
      ensures FindCoin(sent.selection.selected, sent.transaction.inputs[i]).Some? {
      assert SignedInput(sent.transaction, i, sent.selection.selected, wallet.keys) == Some(sent.inputs[i]);
    }
  }

  /**
   The fee check compares with the selected coins, not with the inputs. What the
   network takes of a broadcast is the quoted fee exactly when the inputs named
   twice are worth as much as the selected coins left out; so, for a transaction
   that names none twice, exactly when only worthless coins are left out, and
   never more.
   */
  lemma {:induction false} QuotedFeeIsTakenIff(sent: Broadcast, request: Request, wallet: Wallet, rate: nat,
      fee: nat -> nat, builder: BuildRequest -> Option<Transaction>)
    requires IsSound(sent, request, wallet, rate, fee, builder)
    ensures
      var inputs, selected := sent.transaction.inputs, sent.selection.selected;
      && (Taken(sent.transaction, selected) == sent.selection.fee
        <==> Spent(Repeats(inputs), selected) == Total(Unspent(inputs, selected)))
      && (DistinctInputs(inputs) ==>
            && Taken(sent.transaction, selected) <= sent.selection.fee
            && (Taken(sent.transaction, selected) == sent.selection.fee <==>
                  forall i :: 0 <= i < |selected| ==> OutpointOf(selected[i]) in inputs || selected[i].value == 0))
  {
    var inputs, selected := sent.transaction.inputs, sent.selection.selected;
    SoundInputs(sent, request, wallet, rate, fee, builder);
    SpentAndUnspent(inputs, selected);
    TotalZero(inputs, selected);
    if DistinctInputs(inputs) {
      NoRepeats(inputs);
    }
  }

  // ---------------------------------------------------------------- two real broadcasts

  /** Two coins, at one unit a byte and the dust threshold of the main network. */
  function SmallWallet(): Wallet {
    Wallet(map["" := "key"], "", Some([Coin("a", 900_000), Coin("b", 600_000)]), None, 0, Some(1.0), 10_000)
  }

  function OnePayment(): Request {
    Request(Some("payee"), Some(1_000_000), None)
  }

  function BothCoins(): Selection {
    Selection([Coin("a", 900_000), Coin("b", 600_000)], 374, 499_626)
  }

  lemma {:induction false} CoinsApart(both: seq<Utxo>)
    requires |both| == 2 && both[0] == Coin("a", 900_000) && both[1] == Coin("b", 600_000)
    ensures Distinct(both)
  {
    KeyIff("a", 0, "b", 0);
    assert "a"[0] != "b"[0];
  }

  lemma {:induction false} SmallWalletSpendable()
    ensures
      var both := BothCoins().selected;
      Spendable(SmallWallet().discovered.value, 1, 0) == both && Confirmed(both) == both && Distinct(both)
  {
    var both := BothCoins().selected;
    CoinsApart(both);
    assert Key(both[0]) != Key(both[1]);
    FoundOnceEach(both[0], both[1]);
    assert both == [both[0], both[1]];
  }

  lemma {:induction false} OnePaymentAsks()
    ensures
      var request := OnePayment();
      IsPayable(request) && Named(request) == [Recipient("payee", 1_000_000)] && Asked(Named(request)) == 1_000_000
  {
    var r := Recipient("payee", 1_000_000);
    assert [r][1..] == [] && Asked([r]) == r.amount + Asked([]);
  }

  /** The wallet can pay, and its one selection is both coins. */
  lemma {:induction false} SmallWalletSelects()
    ensures Rate(SmallWallet().feePerByte) == Some(1)
    ensures CanAfford(OnePayment(), SmallWallet(), FeeAt(1, 1))
    ensures IsSelectionOf(OnePayment(), SmallWallet(), FeeAt(1, 1), BothCoins())
  {
    var both := BothCoins().selected;
    SmallWalletSpendable();
    OnePaymentAsks();
    BothSelected(both[0], both[1], both, BothCoins(), 1_000_000, FeeAt(1, 1), 10_000);
  }

  /** The signed inputs of a transaction whose every input can be signed. */
  function SignedInputs(transaction: Transaction, selected: seq<Utxo>, keys: map<string, PrivateKey>): seq<Input>
    requires forall i :: 0 <= i < |transaction.inputs| ==> SignedInput(transaction, i, selected, keys).Some?
  {
    seq(|transaction.inputs|, i requires 0 <= i < |transaction.inputs| => SignedInput(transaction, i, selected,
        keys).value)
  }

  lemma {:induction false} SmallWalletSigns(transaction: Transaction, i: nat)
    requires i < |transaction.inputs|
    requires transaction.inputs[i] == Outpoint("a", 0) || transaction.inputs[i] == Outpoint("b", 0)
    ensures SignedInput(transaction, i, BothCoins().selected, SmallWallet().keys).Some?
  {
    var both := BothCoins().selected;
    assert both[1..] == [both[1]];
    assert OutpointOf(both[0]) == Outpoint("a", 0) && OutpointOf(both[1]) == Outpoint("b", 0);
    var coin := FindCoin(both, transaction.inputs[i]);
    assert coin.Some? && coin.value.address == "";
  }

  lemma {:induction false} BothCoinsQuote(transaction: Transaction)
    requires Paid(transaction.outputs) == 1_499_626
    ensures FeePaidBy(transaction, BothCoins()) == Some(374)
  {
    var both := BothCoins().selected;
    TwoTotals(both[0], both[1]);
    assert both == [both[0], both[1]];
  }

  /** A selection that passes the checks is sent, and sound. */
  lemma {:induction false} PassingIsSent(
      request: Request, wallet: Wallet, rate: nat, fee: nat -> nat, builder: BuildRequest -> Option<Transaction>,
      selection: Selection) returns (sent: Broadcast)
    requires CanAfford(request, wallet, fee) && IsSelectionOf(request, wallet, fee, selection)
    requires PassesChecks(Named(request), wallet, rate, builder, selection)
    ensures Some(sent.transaction) == builder(BuildRequest(selection.selected, Named(request), wallet.nextChange, rate))
    ensures sent.selection == selection && IsSound(sent, request, wallet, rate, fee, builder)
    ensures !IsHeldBack(request, wallet, rate, fee, builder)
  {
    var built := builder(BuildRequest(selection.selected, Named(request), wallet.nextChange, rate)).value;
    sent := Broadcast(built, SignedInputs(built, selection.selected, wallet.keys), selection);
  }

  /** Whatever the builder makes of both coins for 1,499,626 is sent. */
  lemma {:induction false} SmallWalletSends(transaction: Transaction, builder: BuildRequest -> Option<Transaction>)
      returns (sent: Broadcast)
    requires builder(BuildRequest(BothCoins().selected, Named(OnePayment()), "", 1)) == Some(transaction)
    requires Paid(transaction.outputs) == 1_499_626
    requires forall i :: 0 <= i < |transaction.inputs| ==>
      transaction.inputs[i] == Outpoint("a", 0) || transaction.inputs[i] == Outpoint("b", 0)
    ensures sent.transaction == transaction && sent.selection == BothCoins()
    ensures IsSound(sent, OnePayment(), SmallWallet(), 1, FeeAt(1, 1), builder)
    ensures !IsHeldBack(OnePayment(), SmallWallet(), 1, FeeAt(1, 1), builder)
  {
    var both := BothCoins().selected;
    SmallWalletSelects();
    BothCoinsQuote(transaction);
    forall i | 0 <= i < |transaction.inputs| ensures SignedInput(transaction, i, both, SmallWallet().keys).Some? {
      SmallWalletSigns(transaction, i);
    }
    sent := PassingIsSent(OnePayment(), SmallWallet(), 1, FeeAt(1, 1), builder, BothCoins());
  }

  function ToStranger(asked: BuildRequest): Option<Transaction> {
    Some(Transaction([Outpoint("a", 0), Outpoint("b", 0)], [Output("stranger", 1_499_626)]))
  }

  /** A builder that pays a stranger passes every check. */
  lemma {:induction false} RecipientIsNotPaid() returns (sent: Broadcast)
    ensures IsSound(sent, OnePayment(), SmallWallet(), 1, FeeAt(1, 1), ToStranger)
    ensures !IsHeldBack(OnePayment(), SmallWallet(), 1, FeeAt(1, 1), ToStranger)
    ensures PaidTo(sent.transaction.outputs, "payee") == 0
  {
    assert "stranger"[0] != "payee"[0];
    PaidOne(Output("stranger", 1_499_626), "payee");
    sent := SmallWalletSends(ToStranger(BuildRequest(BothCoins().selected, Named(OnePayment()), "", 1)).value,
        ToStranger);
  }

  lemma {:induction false} PaidOne(x: Output, address: string)
    requires x.address != address
    ensures Paid([x]) == x.value && PaidTo([x], address) == 0
  {
    assert [x][1..] == [];
    assert Paid([x]) == x.value + Paid([]) && PaidTo([x], address) == PaidTo([], address);
  }

  function DropsInput(asked: BuildRequest): Option<Transaction> {
    Some(Transaction([Outpoint("a", 0)], [Output("payee", 1_000_000), Output("", 499_626)]))
  }

  /** A builder that drops an input passes every check with outputs that nothing pays for. */
  lemma {:induction false} DroppedInputPasses() returns (sent: Broadcast)
    ensures IsSound(sent, OnePayment(), SmallWallet(), 1, FeeAt(1, 1), DropsInput)
    ensures !IsHeldBack(OnePayment(), SmallWallet(), 1, FeeAt(1, 1), DropsInput)
    ensures Spent(sent.transaction.inputs, sent.selection.selected) == 900_000 < Paid(sent.transaction.outputs)
  {
    PaidPair(Output("payee", 1_000_000), Output("", 499_626));
    SpentFirst(Outpoint("a", 0), BothCoins().selected);
    sent := SmallWalletSends(DropsInput(BuildRequest(BothCoins().selected, Named(OnePayment()), "", 1)).value,
        DropsInput);
  }

  lemma {:induction false} PaidPair(x: Output, y: Output)
    ensures Paid([x, y]) == x.value + y.value
  {
    assert [x, y][1..] == [y] && [y][1..] == [];
    assert Paid([y]) == y.value + Paid([]);
  }

  lemma {:induction false} SpentFirst(outpoint: Outpoint, coins: seq<Utxo>)
    requires coins != [] && OutpointOf(coins[0]) == outpoint
    ensures Spent([outpoint], coins) == coins[0].value
  {
    assert [outpoint][1..] == [];
  }

  // ---------------------------------------------------------------------- the quote

  /** `resolveRecipientCount`; `None` is a count that is refused. */
  function Count(requested: Option<int>): Option<nat> {
    if requested.None? then Some(1)
    else if 1 <= requested.value <= MAX_RECIPIENTS then Some(requested.value)
    else None
  }

  /** `quotePayment`: what a payment would cost, and the rate it is quoted at. */
  method QuotePayment(amount: int, recipientCount: Option<int>, wallet: Wallet)
    returns (result: Result<(Estimate, nat), PaymentError>, keyManager: KeyManager?)
    ensures keyManager != null ==> fresh(keyManager) && keyManager.keys == map[]
    ensures result.Ok? <==>
      && Rate(wallet.feePerByte).Some? && wallet.discovered.Some? && Depth(wallet.depth).Some?
      && Count(recipientCount).Some?
    ensures result.Ok? ==>
      var spendable := Spendable(wallet.discovered.value, Depth(wallet.depth).value, wallet.tip);
      && Some(result.value.1) == Rate(wallet.feePerByte)
      && IsQuote(result.value.0, spendable, amount, FeeAt(result.value.1, Count(recipientCount).value), wallet.dust)
  {
    keyManager := null;
    var rate := Rate(wallet.feePerByte);
    if rate.None? {
      return Err(BadRate), keyManager;
    }
    keyManager := new KeyManager(wallet.keys, wallet.nextChange);
    var depth, count := Depth(wallet.depth), Count(recipientCount);
    if wallet.discovered.None? {
      result := Err(DiscoveryFailed);
    } else if depth.None? {
      result := Err(BadDepth);
    } else if count.None? {
      result := Err(BadCount);
    } else {
      var spendable := Spendable(wallet.discovered.value, depth.value, wallet.tip);
      var e := EstimateSend(spendable, amount, rate.value, count.value, wallet.dust);
      result := Ok((e, rate.value));
    }
    keyManager.Wipe();
  }

  /** What a request was quoted over the wallet it is paid from. */
  ghost predicate WasQuoted(e: Estimate, request: Request, wallet: Wallet, fee: nat -> nat) {
    && wallet.discovered.Some? && Depth(wallet.depth).Some?
    && IsQuote(e, Spendable(wallet.discovered.value, Depth(wallet.depth).value, wallet.tip),
               Asked(Named(request)), fee, wallet.dust)
  }

  /** Insufficient funds are quoted exactly when the wallet cannot pay the request. */
  lemma {:induction false} InsufficientIff(e: Estimate, request: Request, wallet: Wallet, fee: nat -> nat)
    requires IsPayable(request) && WasQuoted(e, request, wallet, fee)
    ensures e.insufficient <==> !CanAfford(request, wallet, fee)
  {
    AskedPositive(Named(request));
  }

  /** The one selection for an amount, and what it adds up to. */
  ghost predicate IsBill(s: Selection, spendable: seq<Utxo>, amount: int, fee: nat -> nat, dust: nat) {
    && amount > 0 && IsLargestFirst(s, spendable, amount, fee, dust)
    && Total(s.selected) == amount + s.fee + s.change
  }

  lemma {:induction false} QuotedBill(
      e: Estimate, s: Selection, spendable: seq<Utxo>, amount: int, fee: nat -> nat, dust: nat)
    requires IsQuote(e, spendable, amount, fee, dust) && IsBill(s, spendable, amount, fee, dust)
    ensures !e.insufficient && e.fee == Some(s.fee) && e.total == Some(Total(s.selected) - s.change)
  {
    QuoteIsTheBill(e, s, spendable, amount, fee, dust);
  }

  lemma {:induction false} BillIsPaid(e: Estimate, s: Selection, request: Request, wallet: Wallet, fee: nat -> nat)
    requires WasQuoted(e, request, wallet, fee)
    requires
      var spendable := Spendable(wallet.discovered.value, Depth(wallet.depth).value, wallet.tip);
      IsBill(s, spendable, Asked(Named(request)), fee, wallet.dust)
    ensures !e.insufficient && e.fee == Some(s.fee) && e.total == Some(Total(s.selected) - s.change)
  {
    var spendable := Spendable(wallet.discovered.value, Depth(wallet.depth).value, wallet.tip);
    QuotedBill(e, s, spendable, Asked(Named(request)), fee, wallet.dust);
  }

  /** Whatever is broadcast costs what was quoted at the same rate: its fee, and with the amount its total. */
  lemma {:induction false} QuotedIsPaid(
      e: Estimate, sent: Broadcast, request: Request, wallet: Wallet, rate: nat, fee: nat -> nat,
      builder: BuildRequest -> Option<Transaction>)
    requires WasQuoted(e, request, wallet, fee) && IsSound(sent, request, wallet, rate, fee, builder)
    ensures !e.insufficient && e.fee == Some(sent.selection.fee)
    ensures e.total == Some(Total(sent.selection.selected) - sent.selection.change)
  {
    BillIsPaid(e, sent.selection, request, wallet, fee);
  }

  // --------------------------------------------------------------------- the balance

  datatype Balance = Balance(spendable: nat, pending: int, total: nat)

  /** Each list goes through a set keyed by outpoint, so a repeat replaces and never adds. */
  method ReadBalance(wallet: Wallet) returns (result: Result<Balance, PaymentError>, keyManager: KeyManager)
    ensures fresh(keyManager) && keyManager.keys == map[]
    ensures result.Ok? <==> wallet.discovered.Some? && Depth(wallet.depth).Some?
    ensures result.Ok? ==>
      var spendable := Spendable(wallet.discovered.value, Depth(wallet.depth).value, wallet.tip);
      result.value == Balance(Total(Collect(spendable)),
          Total(Collect(wallet.discovered.value)) - Total(Collect(spendable)), Total(Collect(wallet.discovered.value)))
  {
    keyManager := new KeyManager(wallet.keys, wallet.nextChange);
    var depth := Depth(wallet.depth);
    if wallet.discovered.None? {
      result := Err(DiscoveryFailed);
    } else if depth.None? {
      result := Err(BadDepth);
    } else {
      var all := new UTXOSet();
      all.AddAll(wallet.discovered.value);
      var spendableSet := new UTXOSet();
      spendableSet.AddAll(Spendable(wallet.discovered.value, depth.value, wallet.tip));
      var spendable := spendableSet.GetBalance();
      var total := all.GetBalance();
      var pending: int := total as int - spendable as int;
      result := Ok(Balance(spendable, pending, total));
    }
    keyManager.Wipe();
  }

  function Outpoints(coins: seq<Utxo>): seq<Outpoint> {
    if coins == [] then [] else [OutpointOf(coins[0])] + Outpoints(coins[1..])
  }

  /** The discovered outpoints that are not spendable, each once. */
  function NotSpendable(all: seq<Utxo>, spendable: seq<Utxo>): seq<Utxo> {
    Unspent(Outpoints(spendable), all)
  }

  /** What the spendable outpoints are worth there beyond what they are worth in the whole list. */
  function Overstated(all: seq<Utxo>, spendable: seq<Utxo>): int {
    if spendable == [] then 0
    else spendable[0].value - Worth(all, OutpointOf(spendable[0])) + Overstated(all, spendable[1..])
  }

  lemma {:induction false} OverstatedIs(all: seq<Utxo>, spendable: seq<Utxo>)
    ensures Overstated(all, spendable) == Total(spendable) - Spent(Outpoints(spendable), all)
  {
    if spendable != [] {
      OverstatedIs(all, spendable[1..]);
      assert Outpoints(spendable)[1..] == Outpoints(spendable[1..]);
    }
  }

  lemma {:induction false} OutpointsAt(coins: seq<Utxo>)
    ensures |Outpoints(coins)| == |coins|
    ensures forall i :: 0 <= i < |coins| ==> Outpoints(coins)[i] == OutpointOf(coins[i])
  {
    if coins != [] {
      OutpointsAt(coins[1..]);
    }
  }

  lemma {:induction false} KeyOfOutpoint(a: Utxo, b: Utxo)
    ensures OutpointOf(a) == OutpointOf(b) <==> Key(a) == Key(b)
  {
    KeyIff(a.txid, a.vout, b.txid, b.vout);
  }

  lemma {:induction false} DistinctOutpoints(coins: seq<Utxo>)
    requires Distinct(coins)
    ensures DistinctInputs(Outpoints(coins))
  {
    OutpointsAt(coins);
    forall i, j | 0 <= i < j < |coins| ensures OutpointOf(coins[i]) != OutpointOf(coins[j]) {
      KeyOfOutpoint(coins[i], coins[j]);
    }
  }

  lemma {:induction false} FoundByKey(coins: seq<Utxo>, u: Utxo)
    requires HasKey(coins, Key(u))
    ensures FindCoin(coins, OutpointOf(u)).Some?
  {
    var i :| 0 <= i < |coins| && Key(coins[i]) == Key(u);
    KeyOfOutpoint(coins[i], u);
    assert coins[i] in coins;
  }

  /** Every spendable outpoint is among the discovered ones. */
  lemma {:induction false} SpendableFound(discovered: seq<Utxo>, depth: nat, tip: int)
    ensures
      var all, spendable := Collect(discovered), Collect(Spendable(discovered, depth, tip));
      Distinct(all) && Distinct(spendable) && AllFound(Outpoints(spendable), all)
  {
    var list := Spendable(discovered, depth, tip);
    var all, spendable := Collect(discovered), Collect(list);
    SpendableMembers(discovered, depth, tip);
    CollectKeeps(discovered);
    CollectKeeps(list);
    OutpointsAt(spendable);
    forall i | 0 <= i < |spendable| ensures FindCoin(all, OutpointOf(spendable[i])).Some? {
      assert spendable[i] in list;
      var k :| 0 <= k < |discovered| && discovered[k] == spendable[i];
      assert HasKey(discovered, Key(spendable[i]));
      FoundByKey(all, spendable[i]);
    }
  }

  /**
   What is pending is the worth of the outpoints that are not spendable, each counted
   once, exactly when the spendable ones are not overstated; and it is negative
   exactly when they are by more than that.
   */
  lemma {:induction false} PendingIsTheRestIff(discovered: seq<Utxo>, depth: nat, tip: int)
    ensures
      var all, spendable := Collect(discovered), Collect(Spendable(discovered, depth, tip));
      var pending, rest := Total(all) - Total(spendable), Total(NotSpendable(all, spendable));
      && pending == rest - Overstated(all, spendable)
      && (pending == rest <==> Overstated(all, spendable) == 0)
      && (pending < 0 <==> Overstated(all, spendable) > rest)
  {
    var all, spendable := Collect(discovered), Collect(Spendable(discovered, depth, tip));
    SpendableFound(discovered, depth, tip);
    SpentAndUnspent(Outpoints(spendable), all);
    DistinctOutpoints(spendable);
    NoRepeats(Outpoints(spendable));
    OverstatedIs(all, spendable);
  }

  /** Repeats of an outpoint agree on its value. */
  predicate ValuesAgree(coins: seq<Utxo>) {
    forall i, j :: 0 <= i < |coins| && 0 <= j < |coins| && Key(coins[i]) == Key(coins[j])
        ==> coins[i].value == coins[j].value
  }

  lemma {:induction false} SameValue(list: seq<Utxo>, x: Utxo, y: Utxo)
    requires ValuesAgree(list) && x in list && y in list && OutpointOf(x) == OutpointOf(y)
    ensures x.value == y.value
  {
    var i :| 0 <= i < |list| && list[i] == x;
    var j :| 0 <= j < |list| && list[j] == y;
  }

  lemma {:induction false} NotOverstated(list: seq<Utxo>, all: seq<Utxo>, spendable: seq<Utxo>)
    requires ValuesAgree(list) && (forall c :: c in all ==> c in list) && (forall c :: c in spendable ==> c in list)
    requires AllFound(Outpoints(spendable), all)
    ensures Overstated(all, spendable) == 0
  {
    if spendable != [] {
      OutpointsAt(spendable);
      OutpointsAt(spendable[1..]);
      forall i | 0 <= i < |spendable[1..]| ensures FindCoin(all, Outpoints(spendable[1..])[i]).Some? {
        assert Outpoints(spendable[1..])[i] == Outpoints(spendable)[i + 1];
      }
      assert spendable[0] in spendable && Outpoints(spendable)[0] == OutpointOf(spendable[0]);
      SameValue(list, FindCoin(all, OutpointOf(spendable[0])).value, spendable[0]);
      NotOverstated(list, all, spendable[1..]);
    }
  }

  /**
   When repeats of an outpoint agree on its value, what is pending is the worth of
   the outpoints that are not spendable, each counted once.
   */
  lemma {:induction false} PendingIsTheRest(discovered: seq<Utxo>, depth: nat, tip: int)
    requires ValuesAgree(discovered)
    ensures
      var all, spendable := Collect(discovered), Collect(Spendable(discovered, depth, tip));
      Total(all) - Total(spendable) == Total(NotSpendable(all, spendable))
  {
    var list := Spendable(discovered, depth, tip);
    SpendableMembers(discovered, depth, tip);
    CollectKeeps(discovered);
    CollectKeeps(list);
    SpendableFound(discovered, depth, tip);
    NotOverstated(discovered, Collect(discovered), Collect(list));
    PendingIsTheRestIff(discovered, depth, tip);
  }

  lemma {:induction false} SpentOnce(u: Utxo, v: Utxo)
    requires u.confirmed && !v.confirmed && Key(u) == Key(v)
    ensures Spendable([u, v], 1, 1) == [u] && Collect([u, v]) == [v]
  {
    assert [u, v][1..] == [v] && [v][1..] == [];
    assert Confirmed([v]) == [];
    assert Confirmed([u, v]) == [u] + Confirmed([v]);
    CollectOne(u);
    assert [u, v][..1] == [u];
    assert Place([u], Key(v)) == 0;
    assert Collect([u, v]) == Put([u], v);
  }

  /** Repeats that disagree can make the pending balance negative. */
  lemma {:induction false} NegativePending()
    ensures
      var confirmed := Utxo("a", 0, "", 5, "", 1, true);
      var unconfirmed := Utxo("a", 0, "", 3, "", -1, false);
      Total(Collect([confirmed, unconfirmed])) < Total(Collect(Spendable([confirmed, unconfirmed], 1, 1)))
  {
    var u, v := Utxo("a", 0, "", 5, "", 1, true), Utxo("a", 0, "", 3, "", -1, false);
    SpentOnce(u, v);
    CollectOne(u);
    TotalCons(u, []);
    TotalCons(v, []);
    assert [u] == [u] + [] && [v] == [v] + [];
  }

  lemma {:induction false} CollectOne(u: Utxo)
    ensures Collect([u]) == [u]
  {
    assert [u][..0] == [] && Collect([u]) == Put([], u);
  }
}
