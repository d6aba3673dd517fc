/** The clients of the accessory server: who is connected, who is pairing, who has been
    verified, and who is told of changes. Results of cryptography and the contents of
    messages are parameters. */
module Sessions {
  import opened Options

  const MAX_CLIENTS: nat := 8

  datatype Step = NoStep | PairSetup1 | PairSetup2 | PairSetup3 | PairVerify1 | PairVerify2 | Ended

  class Client {
    var step: Step
    var encrypted: bool
    var pairingId: int
    var hasVerifyContext: bool
    var disconnect: bool

    constructor ()
      ensures step == NoStep && !encrypted && pairingId == -1 && !hasVerifyContext && !disconnect
    {
      step, encrypted, pairingId, hasVerifyContext, disconnect := NoStep, false, -1, false, false;
    }

    /** What holds of a connected client: the three marks of a verified session agree. */
    predicate Sound() reads this {
      && (encrypted <==> step.PairVerify2?)
      && (encrypted <==> pairingId != -1)
      && (encrypted ==> !hasVerifyContext)
      && !step.Ended?
    }
  }

  class PairingContext {
    var client: Client?

    constructor ()
      ensures client == null
    {
      client := null;
    }
  }

  datatype Endpoint =
    | Unknown | Identify | GetAccessories | GetCharacteristics | UpdateCharacteristics
    | PairSetupUrl | PairVerifyUrl | PairingsUrl | Resource

  /** What a request holds, as far as the sessions are concerned. */
  datatype Request = Request(endpoint: Endpoint, state: int, works: bool, preinitWorks: bool, pairingId: nat,
                             changes: seq<Change>, removesPairing: bool, lastAdmin: bool)

  /** An "ev" member of a write request: a characteristic, and whether to tell the client. */
  datatype Change = Change(characteristic: nat, on: bool)

  /** What may happen at the server, the clients counted from the newest. */
  datatype Event = Accepts | Messages(client: nat, request: Request) | Closes(client: nat) {
    predicate Within(characteristics: nat) {
      Messages? ==> forall i :: 0 <= i < |request.changes| ==> request.changes[i].characteristic < characteristics
    }

    /** The states of pair setup that look at the pairing context without asking for it. */
    predicate AsksForContext() {
      Messages? && request.endpoint.PairSetupUrl? && (request.state == 3 || request.state == 5)
    }
  }

  /** The callback lists after a client's changes, in order. */
  function Subscribed(callbacks: seq<seq<Client>>, c: Client, changes: seq<Change>): (r: seq<seq<Client>>)
    requires forall i :: 0 <= i < |changes| ==> changes[i].characteristic < |callbacks|
    ensures |r| == |callbacks|
  {
    if changes == [] then callbacks
    else
      var last := changes[|changes| - 1];
      var before := Subscribed(callbacks, c, changes[..|changes| - 1]);
      before[last.characteristic := WithChange(before[last.characteristic], c, last.on)]
  }

  function WithChange(list: seq<Client>, c: Client, on: bool): seq<Client> {
    if !on then Removed(list, c) else if c in list then list else list + [c]
  }

  /** After all changes the client is told of a characteristic as the last change of it says,
      or as before; other clients are not affected. */
  lemma {:induction false} LastOfSubscribed(callbacks: seq<seq<Client>>, c: Client, changes: seq<Change>, k: nat)
    requires forall i :: 0 <= i < |changes| ==> changes[i].characteristic < |callbacks|
    requires k < |callbacks|
    ensures var after := Subscribed(callbacks, c, changes)[k];
      c in after <==> match LastWord(changes, k) case None => c in callbacks[k] case Some(on) => on
    ensures forall x :: x != c ==> (x in Subscribed(callbacks, c, changes)[k] <==> x in callbacks[k])
    decreases |changes|
  {
    if changes != [] {
      LastOfSubscribed(callbacks, c, changes[..|changes| - 1], k);
      var last := changes[|changes| - 1];
      var before := Subscribed(callbacks, c, changes[..|changes| - 1]);
      if last.characteristic == k {
        forall x ensures x in WithChange(before[k], c, last.on) <==> if x == c then last.on else x in before[k] {
          RemovedMember(before[k], c, x);
        }
      }
    }
  }

  /** What the last change of a characteristic asks for. */
  function LastWord(changes: seq<Change>, k: nat): Option<bool> {
    if changes == [] then None
    else if changes[|changes| - 1].characteristic == k then Some(changes[|changes| - 1].on)
    else LastWord(changes[..|changes| - 1], k)
  }

  predicate NoRepeats(list: seq<Client>) { forall i, j :: 0 <= i < j < |list| ==> list[i] != list[j] }

  lemma OnlyHere(list: seq<Client>, i: nat)
    requires NoRepeats(list) && i < |list|
    ensures forall j :: 0 <= j < |list| && j != i ==> list[j] != list[i]
  {
  }

  /** The list without a client, wherever it stands in it. */
  function Removed(list: seq<Client>, c: Client): (r: seq<Client>)
    ensures c !in r && (forall i :: 0 <= i < |r| ==> r[i] in list && r[i] != c)
    ensures forall i :: 0 <= i < |list| && list[i] != c ==> list[i] in r
  {
    if list == [] then [] else (if list[0] == c then [] else [list[0]]) + Removed(list[1..], c)
  }

  lemma {:induction false} RemovedSize(list: seq<Client>, c: Client)
    requires NoRepeats(list)
    ensures NoRepeats(Removed(list, c))
    ensures |Removed(list, c)| == |list| - (if c in list then 1 else 0)
    decreases |list|
  {
    if list != [] {
      var rest := list[1..];
      assert forall i :: 0 <= i < |rest| ==> rest[i] == list[i + 1];
      RemovedSize(rest, c);
      assert list[0] !in rest;
      assert c in list <==> list[0] == c || c in rest;
    }
  }

  lemma RemovedMember(list: seq<Client>, c: Client, x: Client)
    ensures x in Removed(list, c) <==> x in list && x != c
  {
  }

  class Server {
    /** The linked list of clients, newest first. */
    var clients: seq<Client>
    var nfds: int
    var paired: bool
    var pairingContext: PairingContext?
    var savedPreinit: PairingContext?
    /** For each characteristic the clients its change callbacks are registered for. */
    var callbacks: seq<seq<Client>>

    ghost predicate Valid()
      reads this, clients, pairingContext
    {
      && nfds == |clients| <= MAX_CLIENTS && NoRepeats(clients)
      && (forall c :: c in clients ==> c.Sound())
      && (pairingContext != null ==> pairingContext == savedPreinit && pairingContext.client in clients)
      && (forall k :: 0 <= k < |callbacks| ==> NoRepeats(callbacks[k]))
      && (forall k, c :: 0 <= k < |callbacks| && c in callbacks[k] ==> c in clients && c.encrypted)
    }

    constructor (characteristics: nat)
      ensures Valid() && clients == [] && |callbacks| == characteristics && pairingContext == null
    {
      clients, nfds, paired, pairingContext, savedPreinit := [], 0, false, null, null;
      callbacks := seq(characteristics, _ => []);
    }

    /** homekit_server_accept_client with a connection waiting: none beyond the eighth. */
    method Accept() returns (c: Client?)
      requires Valid()
      modifies this`clients, this`nfds
      ensures Valid()
      ensures if old(|clients|) == MAX_CLIENTS then c == null && clients == old(clients)
              else c != null && fresh(c) && clients == [c] + old(clients) && c.step.NoStep? && !c.encrypted
    {
      if nfds >= MAX_CLIENTS { return null; }
      var client := new Client();
      clients := [client] + clients;
      nfds := nfds + 1;
      c := client;
      forall i, j | 0 <= i < j < |clients| ensures clients[i] != clients[j] {
        assert clients[j] == old(clients)[j - 1] && (i > 0 ==> clients[i] == old(clients)[i - 1]);
      }
    }

    /** pairing_context_free */
    method FreeContext()
      requires pairingContext != null
      modifies this`savedPreinit
      ensures savedPreinit == if pairingContext == old(savedPreinit) then null else old(savedPreinit)
    {
      if pairingContext == savedPreinit { savedPreinit := null; }
    }

    /** homekit_server_close_client: nothing refers to the client any more. */
    method Close(c: Client)
      requires Valid() && c in clients
      modifies this, c
      ensures Valid() && clients == Removed(old(clients), c)
      ensures c !in clients && (pairingContext == null || pairingContext.client != c)
      ensures |callbacks| == |old(callbacks)|
      ensures forall k :: 0 <= k < |callbacks| ==> callbacks[k] == Removed(old(callbacks)[k], c)
      ensures paired == old(paired) && (savedPreinit == null || savedPreinit == old(savedPreinit))
    {
      hide Removed;
      RemovedSize(clients, c);
      c.step := Ended;
      nfds := nfds - 1;
      if pairingContext != null && pairingContext.client == c {
        FreeContext();
        pairingContext := null;
      }
      clients := Removed(clients, c);
      ClearCallbacks(c);
      forall x | x in clients ensures x.Sound() { RemovedMember(old(clients), c, x); }
      forall k, x | 0 <= k < |callbacks| && x in callbacks[k] ensures x in clients && x.encrypted {
        RemovedMember(old(callbacks)[k], c, x);
        RemovedMember(old(clients), c, x);
      }
      if pairingContext != null { RemovedMember(old(clients), c, pairingContext.client); }
    }

    /** homekit_accessories_clear_notify_callbacks */
    method ClearCallbacks(c: Client)
      requires forall k :: 0 <= k < |callbacks| ==> NoRepeats(callbacks[k])
      modifies this`callbacks
      ensures |callbacks| == |old(callbacks)|
      ensures forall k :: 0 <= k < |callbacks| ==> callbacks[k] == Removed(old(callbacks)[k], c) && NoRepeats(callbacks[k])
    {
      var k := 0;
      while k < |callbacks|
        invariant k <= |callbacks| == |old(callbacks)|
        invariant forall j :: 0 <= j < k ==> callbacks[j] == Removed(old(callbacks)[j], c) && NoRepeats(callbacks[j])
        invariant forall j :: k <= j < |callbacks| ==> callbacks[j] == old(callbacks)[j]
      {
        RemovedSize(callbacks[k], c);
        callbacks := callbacks[k := Removed(callbacks[k], c)];
        k := k + 1;
      }
    }

    /** arduino_homekit_preinit: makes the context unless there is one; may fail. */
    method Preinit(works: bool) returns (ok: bool)
      modifies this`savedPreinit
      ensures ok ==> savedPreinit != null
      ensures old(savedPreinit) != null ==> savedPreinit == old(savedPreinit)
      ensures old(savedPreinit) == null && savedPreinit != null ==> fresh(savedPreinit)
    {
      if savedPreinit != null { return true; }
      if !works { return false; }
      savedPreinit := new PairingContext();
      ok := true;
    }

    /** homekit_server_on_pair_setup. `state` is what the message says, `works` whether
        every check and computation of that state succeeds. States 3 and 5 need a pairing
        context, whose owner is not asked for. */
    method PairSetup(c: Client, state: int, preinitWorks: bool, works: bool)
      requires Valid() && c in clients && !c.encrypted
      requires state == 3 || state == 5 ==> pairingContext != null
      modifies this`savedPreinit, this`pairingContext, this`paired, c`step, savedPreinit
      ensures Valid()
      ensures c.step.PairSetup1? <==> state == 1 && pairingContext != null && pairingContext.client == c && works && !old(paired)
      ensures c.step.PairSetup2? <==> state == 3 && works
      ensures c.step.PairSetup3? <==> state == 5 && works
      ensures state == 5 && works ==> paired && pairingContext == null
      ensures !(state == 5 && works) ==> paired == old(paired)
      ensures savedPreinit == null || savedPreinit == old(savedPreinit) || fresh(savedPreinit)
      ensures old(pairingContext) != null && old(pairingContext.client) != c && !(state == 5 && works)
        ==> pairingContext == old(pairingContext) && pairingContext.client == old(pairingContext.client)
    {
      c.step := NoStep;
      if state == 1 {
        if paired { return; }
        if pairingContext != null {
          if pairingContext.client != c { return; }
        } else {
          var ok := Preinit(preinitWorks);
          if !ok || savedPreinit == null { return; }
          pairingContext := savedPreinit;
          pairingContext.client := c;
        }
        if !works {
          FreeContext();
          pairingContext := null;
          return;
        }
        c.step := PairSetup1;
      } else if state == 3 {
        if works { c.step := PairSetup2; }
      } else if state == 5 {
        if works {
          FreeContext();
          pairingContext := null;
          paired := true;
          c.step := PairSetup3;
        }
      }
    }

    /** homekit_server_on_pair_verify: the only way to a verified session is state 3 after
        state 1, with everything in it checked. */
    method PairVerify(c: Client, state: int, works: bool, pairingId: int)
      requires Valid() && c in clients && !c.encrypted && pairingId >= 0
      modifies c`step, c`hasVerifyContext, c`pairingId, c`encrypted
      ensures Valid()
      ensures c.encrypted <==> state == 3 && works && old(c.hasVerifyContext)
      ensures c.encrypted ==> c.pairingId == pairingId
      ensures c.step.PairVerify1? <==> state == 1 && works
      ensures c.hasVerifyContext <==> (state == 1 && works) || (state != 3 && old(c.hasVerifyContext))
      ensures !c.encrypted && !c.step.PairVerify1? ==> c.step.NoStep?
    {
      c.step := NoStep;
      if state == 1 {
        if !works { return; }
        c.hasVerifyContext := true;
        c.step := PairVerify1;
      } else if state == 3 {
        if !c.hasVerifyContext { return; }
        c.hasVerifyContext := false;
        if !works { return; }
        c.pairingId := pairingId;
        c.encrypted := true;
        c.step := PairVerify2;
      }
    }

    /** The "ev" part of a characteristic write, homekit_characteristic_add_notify_callback
        and homekit_characteristic_remove_notify_callback. */
    method Subscribe(c: Client, k: nat, on: bool)
      requires Valid() && c in clients && c.encrypted && k < |callbacks|
      modifies this`callbacks
      ensures Valid() && |callbacks| == |old(callbacks)|
      ensures callbacks[k] == WithChange(old(callbacks)[k], c, on)
      ensures forall j :: 0 <= j < |callbacks| && j != k ==> callbacks[j] == old(callbacks)[j]
    {
      RemovedSize(callbacks[k], c);
      if on {
        if c !in callbacks[k] { callbacks := callbacks[k := callbacks[k] + [c]]; }
      } else {
        callbacks := callbacks[k := Removed(callbacks[k], c)];
      }
    }

    /** homekit_server_on_update_characteristics, as far as it subscribes: any number of
        changes, one after the other. */
    method SubscribeAll(c: Client, changes: seq<Change>)
      requires Valid() && c in clients && c.encrypted
      requires forall i :: 0 <= i < |changes| ==> changes[i].characteristic < |callbacks|
      modifies this`callbacks
      ensures Valid() && callbacks == Subscribed(old(callbacks), c, changes)
    {
      var i := 0;
      assert changes[..0] == [];
      while i < |changes|
        invariant i <= |changes| && Valid() && callbacks == Subscribed(old(callbacks), c, changes[..i])
      {
        assert changes[..i + 1][..i] == changes[..i];
        Subscribe(c, changes[i].characteristic, changes[i].on);
        i := i + 1;
      }
      assert changes[..i] == changes;
    }

    /** Removing a pairing marks the clients that carry its slot number; with the last
        administrator gone the accessory may be paired again. */
    method RemovePairing(c: Client, pairingId: int, lastAdmin: bool)
      requires Valid() && c in clients && c.encrypted && pairingId >= 0
      modifies this`paired, clients`disconnect
      ensures Valid() && paired == (old(paired) && !lastAdmin)
      ensures forall x :: x in clients ==> x.disconnect == (old(x.disconnect) || x.pairingId == pairingId)
    {
      hide NoRepeats;
      ghost var list := clients;
      var i := 0;
      while i < |clients|
        invariant i <= |clients| && paired == old(paired) && clients == list && Valid()
        invariant forall j :: 0 <= j < |clients| ==>
          clients[j].disconnect == (old(clients[j].disconnect) || (j < i && clients[j].pairingId == pairingId))
      {
        OnlyHere(list, i);
        if clients[i].pairingId == pairingId { clients[i].disconnect := true; }
        i := i + 1;
      }
      if lastAdmin { paired := false; }
    }

    /** homekit_server_on_message_complete: before verification a client reaches nothing but
        the two pairing dialogues, after it everything else. */
    method Message(c: Client, m: Request)
      requires Valid() && c in clients
      requires forall i :: 0 <= i < |m.changes| ==> m.changes[i].characteristic < |callbacks|
      requires !c.encrypted && m.endpoint.PairSetupUrl? && (m.state == 3 || m.state == 5) ==> pairingContext != null
      modifies this, clients, savedPreinit
      ensures Valid() && clients == old(clients)
      ensures old(c.encrypted) ==> c.encrypted && c.pairingId == old(c.pairingId)
      ensures callbacks == if old(c.encrypted) && m.endpoint.UpdateCharacteristics?
                           then Subscribed(old(callbacks), c, m.changes) else old(callbacks)
      ensures !old(c.encrypted) && c.encrypted ==>
        m.endpoint.PairVerifyUrl? && m.state == 3 && m.works && old(c.hasVerifyContext) && c.pairingId == m.pairingId
      ensures !old(c.encrypted) && !m.endpoint.PairSetupUrl? ==> paired == old(paired)
      ensures !old(c.encrypted) && paired && !old(paired) ==> m.endpoint.PairSetupUrl? && m.state == 5 && m.works
      ensures forall x :: x in clients && x != c ==> x.encrypted == old(x.encrypted) && x.pairingId == old(x.pairingId)
      ensures savedPreinit == null || savedPreinit == old(savedPreinit) || fresh(savedPreinit)
    {
      if !c.encrypted {
        match m.endpoint {
          case PairSetupUrl => PairSetup(c, m.state, m.preinitWorks, m.works);
          case PairVerifyUrl => PairVerify(c, m.state, m.works, m.pairingId);
          case _ =>
        }
      } else {
        match m.endpoint {
          case UpdateCharacteristics => SubscribeAll(c, m.changes);
          case PairingsUrl => if m.removesPairing { RemovePairing(c, m.pairingId, m.lastAdmin); }
          case _ =>
        }
      }
    }

    /** Any sequence of connections, requests and disconnections, up to a message the source
        does not survive. The invariant holds throughout; a session once verified stays
        verified, under the same slot number, until it is closed. */
    method Run(events: seq<Event>) returns (n: nat)
      requires Valid()
      requires forall i :: 0 <= i < |events| ==> events[i].Within(|callbacks|)
      modifies this, clients, savedPreinit
      ensures Valid() && |callbacks| == old(|callbacks|)
      ensures n <= |events| && (n < |events| ==> events[n].AsksForContext() && pairingContext == null)
      ensures forall c :: c in clients ==> c in old(clients) || fresh(c)
      ensures forall c :: c in clients && c in old(clients) && old(c.encrypted) ==>
        c.encrypted && c.pairingId == old(c.pairingId)
    {
      hide NoRepeats;
      n := 0;
      while n < |events|
        invariant n <= |events| && Valid() && |callbacks| == old(|callbacks|)
        invariant forall c :: c in clients ==> c in old(clients) || fresh(c)
        invariant savedPreinit == null || savedPreinit == old(savedPreinit) || fresh(savedPreinit)
        invariant forall c :: c in clients && c in old(clients) && old(c.encrypted) ==>
          c.encrypted && c.pairingId == old(c.pairingId)
      {
        if events[n].AsksForContext() && pairingContext == null { return n; }
        assert forall i :: 0 <= i < |clients| ==> clients[i] in old(clients) || fresh(clients[i]);
        Handle(events[n]);
        n := n + 1;
      }
    }

    /** One of them; what is said of a client that is not connected is not received. */
    method Handle(e: Event)
      requires Valid() && e.Within(|callbacks|) && (e.AsksForContext() ==> pairingContext != null)
      modifies this, clients, savedPreinit
      ensures Valid() && |callbacks| == old(|callbacks|)
      ensures forall c :: c in clients ==> c in old(clients) || fresh(c)
      ensures savedPreinit == null || savedPreinit == old(savedPreinit) || fresh(savedPreinit)
      ensures forall c :: c in clients && c in old(clients) && old(c.encrypted) ==>
        c.encrypted && c.pairingId == old(c.pairingId)
    {
      hide NoRepeats, Subscribed;
      match e {
        case Accepts => var c := Accept();
        case Messages(k, m) => if k < |clients| { Message(clients[k], m); }
        case Closes(k) => if k < |clients| { Close(clients[k]); }
      }
    }
  }
}
