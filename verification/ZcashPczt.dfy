/** `zcash_sign_pczt` (keepkeylib/client.py) against an arbitrary device: the
    device leads, and the host answers or raises. */
module ZcashPczt {
  import opened Wrappers
  import opened Bytes

  datatype Response =
    | TransparentAck(nextOutput: Option<nat>, nextInput: Option<nat>)
    | ActionAck(next: Option<nat>)
    | TransparentSigned(transparent: seq<bytes>)
    | SignedPczt(signatures: seq<bytes>)
    | Failure
    | OtherResponse

  /** A record is the caller's fields without an index. */
  type Record = bytes

  /** `isSpend` is missing unless the caller gave an explicit boolean. */
  datatype Action = Action(isSpend: Option<bool>, record: Record)

  datatype Input = Input(hasSighash: bool, record: Record)

  datatype Transaction = Transaction(actions: seq<Action>, ironwood: seq<Action>, outputs: seq<Record>,
      inputs: seq<Input>) {
    function Stream(): seq<Action> {
      actions + ironwood
    }
  }

  datatype Message =
    | Begin(actions: nat, ironwood: nat, outputs: nat, inputs: nat)
    | SendOutput(index: nat, record: Record)
    | SendInput(index: nat, record: Record)
    | SendAction(index: nat, record: Record)

  function Spends(stream: seq<Action>): nat {
    if stream == [] then 0 else (if stream[0].isSpend == Some(true) then 1 else 0) + Spends(stream[1..])
  }

  // ---------------------------------------------------------------- transcripts

  function BeginOf(tx: Transaction): Message {
    Begin(|tx.actions|, |tx.ironwood|, |tx.outputs|, |tx.inputs|)
  }

  function OutputMessages(outputs: seq<Record>, n: nat): (ms: seq<Message>)
    requires n <= |outputs|
    ensures |ms| == n
  {
    seq(n, i requires 0 <= i < n => SendOutput(i, outputs[i]))
  }

  function InputMessages(inputs: seq<Input>, n: nat): (ms: seq<Message>)
    requires n <= |inputs|
    ensures |ms| == n
  {
    seq(n, i requires 0 <= i < n => SendInput(i, inputs[i].record))
  }

  predicate Indexes(order: seq<nat>, k: nat) {
    forall i :: 0 <= i < |order| ==> order[i] < k
  }

  predicate Distinct(order: seq<nat>) {
    forall i, j :: 0 <= i < j < |order| ==> order[i] != order[j]
  }

  function ActionMessages(stream: seq<Action>, order: seq<nat>): (ms: seq<Message>)
    requires Indexes(order, |stream|)
    ensures |ms| == |order|
  {
    seq(|order|, i requires 0 <= i < |order| => SendAction(order[i], stream[order[i]].record))
  }

  /** What the host has sent after `a` outputs, `b` inputs and the actions
      `order`: the caller's records, outputs and inputs in order, no action
      twice. */
  function Transcript(tx: Transaction, a: nat, b: nat, order: seq<nat>): (ms: seq<Message>)
    requires a <= |tx.outputs| && b <= |tx.inputs| && Indexes(order, |tx.Stream()|)
    ensures |ms| == 1 + a + b + |order|
  {
    [BeginOf(tx)] + OutputMessages(tx.outputs, a) + InputMessages(tx.inputs, b) + ActionMessages(tx.Stream(), order)
  }

  /** What arguments the host takes. */
  predicate Acceptable(tx: Transaction) {
    && (tx.actions != [] || tx.inputs != [])
    && (forall i :: 0 <= i < |tx.Stream()| ==> tx.Stream()[i].isSpend.Some?)
    && (forall i :: 0 <= i < |tx.inputs| ==> !tx.inputs[i].hasSighash)
  }

  /** The checks in front of the first message. */
  method CheckArguments(tx: Transaction) returns (taken: bool)
    ensures taken <==> Acceptable(tx)
  {
    if tx.actions == [] && tx.inputs == [] {
      return false;
    }
    var stream := tx.Stream();
    for i := 0 to |stream|
      invariant forall j :: 0 <= j < i ==> stream[j].isSpend.Some?
    {
      if stream[i].isSpend.None? {
        return false;
      }
    }
    for i := 0 to |tx.inputs|
      invariant forall j :: 0 <= j < i ==> !tx.inputs[j].hasSighash
    {
      if tx.inputs[i].hasSighash {
        return false;
      }
    }
    return true;
  }

  lemma {:induction false} SpendsLast(stream: seq<Action>)
    requires stream != []
    ensures var n := |stream| - 1;
            Spends(stream) == Spends(stream[..n]) + if stream[n].isSpend == Some(true) then 1 else 0
    decreases |stream|
  {
    var n := |stream| - 1;
    if n == 0 {
      assert stream[..0] == [] && stream[1..] == [];
    } else {
      SpendsLast(stream[1..]);
      assert stream[1..][..n - 1] == stream[..n][1..];
    }
  }

  function SpendIndexes(stream: seq<Action>): set<nat> {
    set i: nat | i < |stream| && stream[i].isSpend == Some(true)
  }

  /** As many spends as actions say they are one. */
  lemma {:induction false} SpendsAre(stream: seq<Action>)
    ensures Spends(stream) == |SpendIndexes(stream)|
    decreases |stream|
  {
    if stream != [] {
      var n := |stream| - 1;
      SpendsLast(stream);
      SpendsAre(stream[..n]);
      assert SpendIndexes(stream) ==
               SpendIndexes(stream[..n]) + if stream[n].isSpend == Some(true) then {n} else {};
    } else {
      assert SpendIndexes(stream) == {};
    }
  }

  // ------------------------------------------------------------------ compliance

  predicate AsksOutput(device: nat -> Response, i: nat) {
    device(i).TransparentAck? && device(i).nextOutput == Some(i)
  }

  predicate AsksInput(device: nat -> Response, from: nat, i: nat) {
    device(from + i).TransparentAck? && device(from + i).nextInput == Some(i)
  }

  predicate AsksAction(device: nat -> Response, from: nat, j: nat, index: nat) {
    device(from + j) == ActionAck(Some(index))
  }

  /** The device asks for the first `n` outputs in order. */
  ghost predicate AsksOutputs(device: nat -> Response, n: nat) {
    forall i: nat :: i < n ==> AsksOutput(device, i)
  }

  /** From response `from` on it asks for the first `n` inputs in order. */
  ghost predicate AsksInputs(device: nat -> Response, from: nat, n: nat) {
    forall i: nat :: i < n ==> AsksInput(device, from, i)
  }

  /** The actions it asks for from response `from` on are these. */
  ghost predicate AsksActions(device: nat -> Response, from: nat, order: seq<nat>) {
    forall j: nat :: j < |order| ==> AsksAction(device, from, j, order[j])
  }

  /** It asks for every action exactly once, in some order. */
  ghost predicate AsksEveryAction(device: nat -> Response, from: nat, k: nat) {
    exists order :: IsOrder(order, k) && AsksActions(device, from, order)
  }

  /** Each index below `k` exactly once. */
  ghost predicate IsOrder(order: seq<nat>, k: nat) {
    |order| == k && Indexes(order, k) && Distinct(order)
  }

  /** The transparent signatures, if any, and the shielded ones that end a run
      whose last acknowledgement is response `at`. */
  function Finish(device: nat -> Response, at: nat): (seq<bytes>, Response) {
    match device(at)
    case TransparentSigned(transparent) => (transparent, device(at + 1))
    case response => ([], response)
  }

  predicate SignaturesComplete(tx: Transaction, transparent: seq<bytes>, last: Response) {
    && last.SignedPczt?
    && |transparent| == |tx.inputs| && (forall i :: 0 <= i < |transparent| ==> transparent[i] != [])
    && |last.signatures| == Spends(tx.Stream())
    && (forall i :: 0 <= i < |last.signatures| ==> |last.signatures[i]| == 64)
  }

  /** A device run that ends in a signed transaction. */
  ghost predicate Complies(device: nat -> Response, tx: Transaction) {
    var from := |tx.outputs| + |tx.inputs|;
    var (transparent, last) := Finish(device, from + |tx.Stream()|);
    && AsksOutputs(device, |tx.outputs|) && AsksInputs(device, |tx.outputs|, |tx.inputs|)
    && AsksEveryAction(device, from, |tx.Stream()|)
    && SignaturesComplete(tx, transparent, last)
  }

  /** `set(range(k))`. */
  function Upto(k: nat): (r: set<nat>)
    ensures forall i: nat :: i in r <==> i < k
    ensures |r| == k
  {
    if k == 0 then {} else Upto(k - 1) + {k - 1}
  }

  function Elements(order: seq<nat>): set<nat> {
    set i | 0 <= i < |order| :: order[i]
  }

  lemma {:induction false} DistinctSize(order: seq<nat>)
    requires Distinct(order)
    ensures |Elements(order)| == |order|
  {
    if order != [] {
      var n := |order| - 1;
      DistinctSize(order[..n]);
      assert Elements(order) == Elements(order[..n]) + {order[n]};
    }
  }

  /** Distinct indexes below `k` are all of them exactly when there are `k`. */
  lemma AllIndexesIff(order: seq<nat>, k: nat)
    requires Distinct(order) && Indexes(order, k)
    ensures Elements(order) == Upto(k) <==> |order| == k
    ensures |order| <= k
  {
    DistinctSize(order);
    assert Elements(order) <= Upto(k);
    SubsetSize(Elements(order), Upto(k));
  }

  lemma {:induction false} SubsetSize(a: set<nat>, b: set<nat>)
    requires a <= b
    ensures |a| <= |b| && (|a| == |b| ==> a == b)
  {
    if a != {} {
      var x :| x in a;
      SubsetSize(a - {x}, b - {x});
    }
  }

  // --------------------------------------------------------------------- session

  /** The transport: messages sent so far, and how many responses were read. */
  class Session {
    const device: nat -> Response
    var sent: seq<Message>
    var responses: nat

    constructor (device: nat -> Response)
      ensures this.device == device && sent == [] && responses == 0
    {
      this.device := device;
      sent, responses := [], 0;
    }

    /** `call`: a Failure raises. */
    method Call(m: Message) returns (r: Result<Response>)
      modifies this
      ensures sent == old(sent) + [m] && responses == old(responses) + 1
      ensures r == if device(old(responses)).Failure? then Raised else Ok(device(old(responses)))
    {
      sent := sent + [m];
      var response := device(responses);
      responses := responses + 1;
      return if response.Failure? then Raised else Ok(response);
    }

    /** `transport.read_blocking`. */
    method ReadBlocking() returns (response: Response)
      modifies this`responses
      ensures responses == old(responses) + 1 && response == device(old(responses))
    {
      response := device(responses);
      responses := responses + 1;
    }

    // ------------------------------------------------------------------- phases

    /** What has happened when `a` outputs, `b` inputs and the actions `order`
        have been sent: the device asked for each, and this is the transcript. */
    ghost predicate Progress(tx: Transaction, a: nat, b: nat, order: seq<nat>)
      reads this
    {
      Asked(device, tx, a, b, order) && sent == Transcript(tx, a, b, order) && responses == |sent|
    }

    method SendOutputs(tx: Transaction, first: Response) returns (r: Result<Response>, a: nat)
      requires Progress(tx, 0, 0, []) && first == device(0)
      modifies this
      ensures a <= |tx.outputs| && Progress(tx, a, 0, [])
      ensures r.Raised? ==> !Complies(device, tx)
      ensures r.Ok? ==> r.value == device(a) && (a < |tx.outputs| ==> !r.value.TransparentAck?)
    {
      hide Complies, Transcript, Asked;
      a := 0;
      var response := first;
      while a < |tx.outputs| && response.TransparentAck?
        invariant a <= |tx.outputs| && Progress(tx, a, 0, []) && response == device(a)
      {
        if response.nextOutput != Some(a) {
          NotAskedOutput(device, tx, a);
          return Raised, a;
        }
        var next := Call(SendOutput(a, tx.outputs[a]));
        OutputSent(device, tx, a);
        a := a + 1;
        if next.Raised? {
          FailureBreaks(device, tx, a);
          return Raised, a;
        }
        response := next.value;
      }
      return Ok(response), a;
    }

    method SendInputs(tx: Transaction, a: nat, first: Response) returns (r: Result<Response>, b: nat)
      requires Progress(tx, a, 0, []) && first == device(a) && a <= |tx.outputs|
               && (a < |tx.outputs| ==> !first.TransparentAck?)
      modifies this
      ensures b <= |tx.inputs| && Progress(tx, a, b, [])
      ensures r.Raised? ==> !Complies(device, tx)
      ensures r.Ok? ==> r.value == device(a + b)
      ensures r.Ok? && (a < |tx.outputs| || b < |tx.inputs|) ==> !Complies(device, tx)
    {
      hide Complies, Transcript, Asked;
      b := 0;
      var response := first;
      if a < |tx.outputs| {
        NotAskedOutput(device, tx, a);
      }
      while b < |tx.inputs| && response.TransparentAck?
        invariant b <= |tx.inputs| && Progress(tx, a, b, []) && response == device(a + b)
        invariant a < |tx.outputs| ==> !response.TransparentAck? && !Complies(device, tx)
      {
        if response.nextInput != Some(b) {
          NotAskedInput(device, tx, b);
          return Raised, b;
        }
        var next := Call(SendInput(b, tx.inputs[b].record));
        InputSent(device, tx, a, b);
        b := b + 1;
        if next.Raised? {
          FailureBreaks(device, tx, a + b);
          return Raised, b;
        }
        response := next.value;
      }
      if a == |tx.outputs| && b < |tx.inputs| {
        NotAskedInput(device, tx, b);
      }
      return Ok(response), b;
    }

    /** The device chooses the next action; each is sent once. */
    method SendActions(tx: Transaction, first: Response) returns (r: Result<Response>, ghost order: seq<nat>)
      requires Progress(tx, |tx.outputs|, |tx.inputs|, []) && first == device(|tx.outputs| + |tx.inputs|)
      modifies this
      ensures Progress(tx, |tx.outputs|, |tx.inputs|, order)
      ensures r.Raised? ==> !Complies(device, tx)
      ensures r.Ok? ==> IsOrder(order, |tx.Stream()|) && r.value == device(|tx.outputs| + |tx.inputs| + |tx.Stream()|)
    {
      hide Complies, Transcript, Asked, Elements, IsOrder, Indexes, Distinct, Upto;
      var stream := tx.Stream();
      ghost var from := |tx.outputs| + |tx.inputs|;
      var response := first;
      var sentActions: set<nat> := {};
      order := [];
      NothingAsked(device, tx);
      while response.ActionAck?
        invariant Progress(tx, |tx.outputs|, |tx.inputs|, order) && response == device(from + |order|)
        invariant sentActions == Elements(order)
        decreases Upto(|stream|) - sentActions
      {
        if response.next.None? || response.next.value >= |stream| || response.next.value in sentActions {
          NotAskedAction(device, tx, order);
          return Raised, order;
        }
        var index := response.next.value;
        var next := Call(SendAction(index, stream[index].record));
        ActionSent(device, tx, order, index);
        order := order + [index];
        sentActions := sentActions + {index};
        if next.Raised? {
          AskedAtMost(device, tx, order);
          FailureBreaks(device, tx, from + |order|);
          return Raised, order;
        }
        response := next.value;
      }
      AskedAtMost(device, tx, order);
      if sentActions != Upto(|stream|) {
        NotAskedAction(device, tx, order);
        return Raised, order;
      }
      return Ok(response), order;
    }

    /** The end of a run: the signatures are read and counted. */
    method TakeSignatures(tx: Transaction, first: Response) returns (r: Result<(seq<bytes>, seq<bytes>)>)
      requires responses > 0 && first == device(responses - 1)
      modifies this`responses
      ensures var (transparent, last) := Finish(device, old(responses) - 1);
              && (r.Ok? <==> SignaturesComplete(tx, transparent, last))
              && (r.Ok? ==> r.value == (last.signatures, transparent))
    {
      var response := first;
      var transparent: seq<bytes> := [];
      if response.TransparentSigned? {
        transparent := response.transparent;
        response := ReadBlocking();
      }
      if !response.SignedPczt? || |transparent| != |tx.inputs| {
        return Raised;
      }
      for i := 0 to |transparent|
        invariant forall j :: 0 <= j < i ==> transparent[j] != []
      {
        if transparent[i] == [] {
          return Raised;
        }
      }
      var signatures := response.signatures;
      if |signatures| != Spends(tx.Stream()) {
        return Raised;
      }
      for i := 0 to |signatures|
        invariant forall j :: 0 <= j < i ==> |signatures[j]| == 64
      {
        if |signatures[i]| != 64 {
          return Raised;
        }
      }
      return Ok((signatures, transparent));
    }

    /** `zcash_sign_pczt`. It returns normally exactly when the arguments are
        acceptable and the device asks for every output and input in order, then
        for every action once, and then delivers all signatures. Whatever the
        device does, only the caller's records are sent, each at its own index:
        outputs and inputs in order, no action twice. */
    method SignPczt(tx: Transaction)
      returns (r: Result<(seq<bytes>, seq<bytes>)>, ghost a: nat, ghost b: nat, ghost order: seq<nat>)
      requires sent == [] && responses == 0
      modifies this
      ensures r.Ok? <==> Acceptable(tx) && Complies(device, tx)
      ensures !Acceptable(tx) ==> sent == []
      ensures Acceptable(tx) ==> Asked(device, tx, a, b, order) && sent == Transcript(tx, a, b, order)
      ensures r.Ok? ==> a == |tx.outputs| && b == |tx.inputs| && IsOrder(order, |tx.Stream()|)
      ensures r.Ok? ==> |sent| == 1 + |tx.outputs| + |tx.inputs| + |tx.Stream()|
      ensures r.Ok? ==>
                |r.value.0| == Spends(tx.Stream()) && (forall i :: 0 <= i < |r.value.0| ==> |r.value.0[i]| == 64)
      ensures r.Ok? ==> |r.value.1| == |tx.inputs| && (forall i :: 0 <= i < |r.value.1| ==> r.value.1[i] != [])
    {
      hide Asked, Transcript, Spends, AsksOutputs, AsksInputs, AsksEveryAction, IsOrder;
      a, b, order := 0, 0, [];
      var taken := CheckArguments(tx);
      if !taken {
        return Raised, a, b, order;
      }
      NothingAsked(device, tx);
      NothingSent(tx);
      var first := Call(BeginOf(tx));
      if first.Raised? {
        FailureBreaks(device, tx, 0);
        return Raised, a, b, order;
      }
      var response, outputs, inputs;
      response, outputs := SendOutputs(tx, first.value);
      a := outputs;
      if response.Raised? {
        return Raised, a, b, order;
      }
      response, inputs := SendInputs(tx, outputs, response.value);
      b := inputs;
      if response.Raised? || outputs != |tx.outputs| || inputs != |tx.inputs| {
        return Raised, a, b, order;
      }
      response, order := SendActions(tx, response.value);
      if response.Raised? {
        return Raised, a, b, order;
      }
      EveryActionAsked(device, tx, order);
      r := TakeSignatures(tx, response.value);
    }
  }

  lemma NothingSent(tx: Transaction)
    ensures Transcript(tx, 0, 0, []) == [BeginOf(tx)]
  {
  }

  lemma EveryActionAsked(device: nat -> Response, tx: Transaction, order: seq<nat>)
    requires Asked(device, tx, |tx.outputs|, |tx.inputs|, order) && IsOrder(order, |tx.Stream()|)
    ensures AsksOutputs(device, |tx.outputs|) && AsksInputs(device, |tx.outputs|, |tx.inputs|)
    ensures AsksEveryAction(device, |tx.outputs| + |tx.inputs|, |tx.Stream()|)
    ensures Indexes(order, |tx.Stream()|)
    ensures |Transcript(tx, |tx.outputs|, |tx.inputs|, order)| == 1 + |tx.outputs| + |tx.inputs| + |tx.Stream()|
  {
    hide AsksOutputs, AsksInputs, AsksActions, Transcript;
  }

  /** The device asked for `a` outputs, `b` inputs and the actions `order`. */
  ghost predicate Asked(device: nat -> Response, tx: Transaction, a: nat, b: nat, order: seq<nat>) {
    && a <= |tx.outputs| && b <= |tx.inputs| && Indexes(order, |tx.Stream()|) && Distinct(order)
    && AsksOutputs(device, a) && AsksInputs(device, a, b) && AsksActions(device, a + b, order)
  }

  lemma NothingAsked(device: nat -> Response, tx: Transaction)
    ensures Asked(device, tx, 0, 0, []) && Elements([]) == {} && Indexes([], |tx.Stream()|)
  {
  }

  lemma NotAskedOutput(device: nat -> Response, tx: Transaction, a: nat)
    requires a < |tx.outputs| && !AsksOutput(device, a)
    ensures !Complies(device, tx)
  {
    hide AsksOutput, AsksInputs, AsksEveryAction, SignaturesComplete, Finish;
  }

  lemma NotAskedInput(device: nat -> Response, tx: Transaction, b: nat)
    requires b < |tx.inputs| && !AsksInput(device, |tx.outputs|, b)
    ensures !Complies(device, tx)
  {
    hide AsksOutputs, AsksInput, AsksEveryAction, SignaturesComplete, Finish;
  }

  /** The device's next response names no action that is still to come, though
      some are missing, or it asks for one too many. */
  lemma NotAskedAction(device: nat -> Response, tx: Transaction, order: seq<nat>)
    requires Asked(device, tx, |tx.outputs|, |tx.inputs|, order)
    requires var response := device(|tx.outputs| + |tx.inputs| + |order|);
             || (response.ActionAck? && (response.next.None? || response.next.value >= |tx.Stream()|
                                         || response.next.value in Elements(order)))
             || (!response.ActionAck? && Elements(order) != Upto(|tx.Stream()|))
    ensures !Complies(device, tx)
  {
    hide AsksOutputs, AsksInputs, SignaturesComplete, AsksActions, Finish, Elements, Upto;
    var from, k := |tx.outputs| + |tx.inputs|, |tx.Stream()|;
    AllIndexesIff(order, k);
    if |order| == k {
      ExtraAction(device, tx);
    } else if AsksEveryAction(device, from, k) {
      var full :| IsOrder(full, k) && AsksActions(device, from, full);
      NextAsked(device, from, order, full);
    }
  }

  lemma ExtraAction(device: nat -> Response, tx: Transaction)
    requires device(|tx.outputs| + |tx.inputs| + |tx.Stream()|).ActionAck?
    ensures !Complies(device, tx)
  {
    hide AsksOutputs, AsksInputs, AsksEveryAction;
  }

  lemma NextAsked(device: nat -> Response, from: nat, order: seq<nat>, full: seq<nat>)
    requires AsksActions(device, from, order) && AsksActions(device, from, full) && |order| < |full| && Distinct(full)
    ensures device(from + |order|) == ActionAck(Some(full[|order|])) && full[|order|] !in Elements(order)
  {
    assert AsksAction(device, from, |order|, full[|order|]);
    forall j: nat | j < |order| ensures order[j] == full[j] {
      assert AsksAction(device, from, j, order[j]) && AsksAction(device, from, j, full[j]);
    }
  }

  /** A Failure up to the last acknowledgement ends every hope. */
  lemma FailureBreaks(device: nat -> Response, tx: Transaction, at: nat)
    requires device(at).Failure? && at <= |tx.outputs| + |tx.inputs| + |tx.Stream()|
    ensures !Complies(device, tx)
  {
    hide AsksOutputs, AsksInputs;
    var n, from, k := |tx.outputs|, |tx.outputs| + |tx.inputs|, |tx.Stream()|;
    if at < n {
      NotAskedOutput(device, tx, at);
    } else if at < from {
      NotAskedInput(device, tx, at - n);
    } else if at < from + k {
      forall order | IsOrder(order, k) ensures !AsksActions(device, from, order) {
        assert !AsksAction(device, from, at - from, order[at - from]);
      }
    }
  }

  lemma AskedAtMost(device: nat -> Response, tx: Transaction, order: seq<nat>)
    requires Asked(device, tx, |tx.outputs|, |tx.inputs|, order)
    ensures |order| <= |tx.Stream()|
    ensures Elements(order) == Upto(|tx.Stream()|) ==> IsOrder(order, |tx.Stream()|) && |order| == |tx.Stream()|
  {
    hide AsksOutputs, AsksInputs, AsksActions;
    AllIndexesIff(order, |tx.Stream()|);
  }

  lemma OutputSent(device: nat -> Response, tx: Transaction, a: nat)
    requires Asked(device, tx, a, 0, []) && a < |tx.outputs| && AsksOutput(device, a)
    ensures Asked(device, tx, a + 1, 0, [])
    ensures Transcript(tx, a + 1, 0, []) == Transcript(tx, a, 0, []) + [SendOutput(a, tx.outputs[a])]
  {
  }

  lemma InputSent(device: nat -> Response, tx: Transaction, a: nat, b: nat)
    requires Asked(device, tx, a, b, []) && b < |tx.inputs| && AsksInput(device, a, b)
    ensures Asked(device, tx, a, b + 1, [])
    ensures Transcript(tx, a, b + 1, []) == Transcript(tx, a, b, []) + [SendInput(b, tx.inputs[b].record)]
  {
  }

  lemma ActionSent(device: nat -> Response, tx: Transaction, order: seq<nat>, index: nat)
    requires Asked(device, tx, |tx.outputs|, |tx.inputs|, order) && index < |tx.Stream()| && index !in Elements(order)
    requires AsksAction(device, |tx.outputs| + |tx.inputs|, |order|, index)
    ensures Asked(device, tx, |tx.outputs|, |tx.inputs|, order + [index])
    ensures Transcript(tx, |tx.outputs|, |tx.inputs|, order + [index])
         == Transcript(tx, |tx.outputs|, |tx.inputs|, order) + [SendAction(index, tx.Stream()[index].record)]
    ensures Elements(order + [index]) == Elements(order) + {index}
  {
    hide AsksOutputs, AsksInputs, AsksAction;
    ElementsNext(order, index);
    assert ActionMessages(tx.Stream(), order + [index]) ==
             ActionMessages(tx.Stream(), order) + [SendAction(index, tx.Stream()[index].record)];
  }

  lemma ElementsNext(order: seq<nat>, index: nat)
    requires Distinct(order) && index !in Elements(order)
    ensures Elements(order + [index]) == Elements(order) + {index} && Distinct(order + [index])
  {
    var next := order + [index];
    forall i | 0 <= i < |order| ensures next[i] == order[i] && order[i] in Elements(order) {
    }
    forall x | x in Elements(order) ensures x in Elements(next) {
      var i :| 0 <= i < |order| && order[i] == x;
      assert next[i] == x;
    }
    assert next[|order|] == index;
  }
}
