/**
 Binding an API key to the first machine that uses it (ValidateServerKey in
 internal/service/auth.go over the statements of internal/store/apikey.go): requests
 read the key, bind it if it is unbound, and re-read it when another request was
 faster; administrators unbind, toggle, delete and create keys in between.
 */
module KeyBinding {
  import opened Wrappers

  datatype Key = Key(value: string, keyType: string, active: bool, machineID: string)

  type Keys = map<int, Key>

  datatype Error = InvalidKey | WrongKeyType | WrongMachine

  const SERVER := "server"

  // ---------------------------------------------------------------- the statements

  // Values are unique (the column is).
  ghost predicate UniqueValues(keys: Keys) {
    forall a, b :: a in keys && b in keys && keys[a].value == keys[b].value ==> a == b
  }

  // BindAPIKeyMachineID: UPDATE ... WHERE id = ? AND machine_id = ''
  predicate CanBind(keys: Keys, id: int) { id in keys && keys[id].machineID == "" }

  function Bound(keys: Keys, id: int, machineID: string): Keys {
    if CanBind(keys, id) then keys[id := keys[id].(machineID := machineID)] else keys
  }

  // What the first read decides; None: the key is unbound and the request goes on to bind.
  function FirstLook(k: Option<Key>, machineID: string): Option<Option<Error>> {
    if k.None? || !k.value.active then Some(Some(InvalidKey))
    else if k.value.keyType != SERVER then Some(Some(WrongKeyType))
    else if machineID == "" then Some(Some(WrongMachine))
    else if k.value.machineID == "" then None
    else Some(if k.value.machineID == machineID then None else Some(WrongMachine))
  }

  // ---------------------------------------------------------------- interleaved requests

  datatype Phase =
    | Started
    | Unbound(id: int)          // read the key, found it unbound
    | Beaten(id: int)           // the bind changed no row
    | Accepted(id: int)
    | Rejected(error: Error)

  // held: the machine IDs the key row has had since the request read it.
  datatype Request = Request(rawKey: string, machineID: string, phase: Phase, held: set<string>)

  datatype World = World(keys: Keys, ever: set<int>, requests: map<int, Request>)

  datatype Step =
    | Begin(r: int, rawKey: string, machineID: string)
    | ReadKey(r: int, found: Option<int>)
    | Bind(r: int)
    | Reread(r: int)
    | Unbind(id: int)
    | Toggle(id: int)
    | Delete(id: int)
    | Create(id: int, key: Key)

  // A step that can happen in w.
  ghost predicate Enabled(w: World, s: Step) {
    match s
    case Begin(r, _, _) => r !in w.requests
    case ReadKey(r, found) =>
      && r in w.requests && w.requests[r].phase.Started?
      && (found.Some? ==> found.value in w.keys && w.keys[found.value].value == w.requests[r].rawKey)
      && (found.None? ==> forall id :: id in w.keys ==> w.keys[id].value != w.requests[r].rawKey)
    case Bind(r) => r in w.requests && w.requests[r].phase.Unbound?
    case Reread(r) => r in w.requests && w.requests[r].phase.Beaten?
    case Create(id, key) =>
      && id !in w.ever && key.machineID == ""
      && forall other :: other in w.keys ==> w.keys[other].value != key.value
    case _ => true
  }

  // Every request that is on a key and not answered yet sees what its row holds now.
  function Watch(keys: Keys, q: Request): Request {
    if (q.phase.Unbound? || q.phase.Beaten?) && q.phase.id in keys
    then q.(held := q.held + {keys[q.phase.id].machineID}) else q
  }

  function WithKeys(w: World, keys: Keys): World {
    w.(keys := keys, requests := map r | r in w.requests :: Watch(keys, w.requests[r]))
  }

  function SetPhase(w: World, r: int, p: Phase): World
    requires r in w.requests
  {
    w.(requests := w.requests[r := w.requests[r].(phase := p)])
  }

  function Apply(w: World, s: Step): World {
    match s
    case Begin(r, rawKey, machineID) => w.(requests := w.requests[r := Request(rawKey, machineID, Started, {})])
    case ReadKey(r, found) =>
      if r !in w.requests || !w.requests[r].phase.Started? || (found.Some? && found.value !in w.keys) then w
      else
        var q := w.requests[r];
        var k := if found.Some? then Some(w.keys[found.value]) else None;
        (match FirstLook(k, q.machineID)
         case Some(Some(e)) => SetPhase(w, r, Rejected(e))
         case Some(None) =>
           w.(requests := w.requests[r := q.(phase := Accepted(found.value), held := {k.value.machineID})])
         case None =>
           w.(requests := w.requests[r := q.(phase := Unbound(found.value), held := {k.value.machineID})]))
    case Bind(r) =>
      if r !in w.requests || !w.requests[r].phase.Unbound? then w
      else
        var id := w.requests[r].phase.id;
        if CanBind(w.keys, id)
        then SetPhase(WithKeys(w, Bound(w.keys, id, w.requests[r].machineID)), r, Accepted(id))
        else SetPhase(w, r, Beaten(id))
    case Reread(r) =>
      if r !in w.requests || !w.requests[r].phase.Beaten? then w
      else
        var id := w.requests[r].phase.id;
        if id !in w.keys then SetPhase(w, r, Rejected(InvalidKey))
        else if w.keys[id].machineID == w.requests[r].machineID then SetPhase(w, r, Accepted(id))
        else SetPhase(w, r, Rejected(WrongMachine))
    case Unbind(id) =>
      if id in w.keys then WithKeys(w, w.keys[id := w.keys[id].(machineID := "")]) else w
    case Toggle(id) =>
      if id in w.keys then WithKeys(w, w.keys[id := w.keys[id].(active := !w.keys[id].active)]) else w
    case Delete(id) => WithKeys(w, w.keys - {id})
    case Create(id, key) => WithKeys(w.(ever := w.ever + {id}), w.keys[id := key])
  }

  /** What the first read decides: an unknown or inactive key, one of another type and a request
      without a machine are refused; a key bound to the request's machine is accepted and one
      bound to another refused; only an unbound key is bound. */
  lemma ReadDecides(w: World, r: int, id: int)
    requires r in w.requests && w.requests[r].phase.Started? && id in w.keys
    ensures var k, q := w.keys[id], w.requests[r];
            Apply(w, ReadKey(r, Some(id))).requests[r].phase ==
            if !k.active then Rejected(InvalidKey)
            else if k.keyType != "server" then Rejected(WrongKeyType)
            else if q.machineID == "" then Rejected(WrongMachine)
            else if k.machineID == "" then Unbound(id)
            else if k.machineID == q.machineID then Accepted(id)
            else Rejected(WrongMachine)
    ensures Apply(w, ReadKey(r, None)).requests[r].phase == Rejected(InvalidKey)
  {
  }

  /** The bind is won on an unbound row only and then accepts; a beaten request looks again and is
      accepted exactly when the row, if it is still there, now carries its own machine. */
  lemma BindDecides(w: World, r: int, id: int)
    requires r in w.requests
    ensures w.requests[r].phase == Unbound(id) ==>
              var n, machine := Apply(w, Bind(r)), w.requests[r].machineID;
              if id in w.keys && w.keys[id].machineID == ""
              then n.requests[r].phase == Accepted(id) && id in n.keys && n.keys[id].machineID == machine
              else n.requests[r].phase == Beaten(id) && n.keys == w.keys
    ensures w.requests[r].phase == Beaten(id) ==>
              var n := Apply(w, Reread(r));
              && n.keys == w.keys
              && n.requests[r].phase ==
                 if id !in w.keys then Rejected(InvalidKey)
                 else if w.keys[id].machineID == w.requests[r].machineID then Accepted(id)
                 else Rejected(WrongMachine)
  {
  }

  /** What administrators do to a key. */
  lemma AdministratorsChange(w: World, id: int)
    requires id in w.keys
    ensures var n := Apply(w, Unbind(id)); id in n.keys && n.keys[id] == w.keys[id].(machineID := "")
    ensures var n := Apply(w, Toggle(id)); id in n.keys && n.keys[id] == w.keys[id].(active := !w.keys[id].active)
    ensures id !in Apply(w, Delete(id)).keys
    ensures forall other, s :: other != id && s in {Unbind(id), Toggle(id), Delete(id)} ==>
                                 (other in Apply(w, s).keys <==> other in w.keys)
                                 && (other in w.keys ==> Apply(w, s).keys[other] == w.keys[other])
  {
  }

  ghost predicate AllEnabled(w: World, steps: seq<Step>)
    decreases |steps|
  {
    steps == [] || (Enabled(w, steps[0]) && AllEnabled(Apply(w, steps[0]), steps[1..]))
  }

  function Run(w: World, steps: seq<Step>): World
    decreases |steps|
  {
    if steps == [] then w else Run(Apply(w, steps[0]), steps[1..])
  }

  // An accepted machine ID is one the row held while the request was on; a request that
  // is still on has seen what the row holds now.
  predicate RequestSound(keys: Keys, ever: set<int>, q: Request) {
    match q.phase
    case Accepted(id) => q.machineID != "" && q.machineID in q.held && id in ever
    case Unbound(id) => q.machineID != "" && id in ever && (id in keys ==> keys[id].machineID in q.held)
    case Beaten(id) => q.machineID != "" && id in ever && (id in keys ==> keys[id].machineID in q.held)
    case _ => true
  }

  ghost predicate Sound(w: World) {
    w.keys.Keys <= w.ever && forall r :: r in w.requests ==> RequestSound(w.keys, w.ever, w.requests[r])
  }

  // A change of the keys that creates none is watched by every request.
  lemma WithKeysKeepsSound(w: World, keys: Keys, ever: set<int>)
    requires Sound(w) && keys.Keys <= ever && w.ever <= ever
    ensures Sound(WithKeys(w.(ever := ever), keys))
    ensures w.requests.Keys == WithKeys(w, keys).requests.Keys
    ensures forall r :: r in w.requests ==> WithKeys(w, keys).requests[r] == Watch(keys, w.requests[r])
  {
    var n := WithKeys(w.(ever := ever), keys);
    forall r | r in n.requests ensures RequestSound(keys, ever, n.requests[r]) {
      assert RequestSound(w.keys, w.ever, w.requests[r]);
    }
  }

  lemma OneRequestKeepsSound(w: World, r: int, q: Request)
    requires Sound(w) && RequestSound(w.keys, w.ever, q)
    ensures Sound(w.(requests := w.requests[r := q]))
  {
  }

  lemma ReadKeepsSound(w: World, r: int, found: Option<int>)
    requires Sound(w)
    ensures Sound(Apply(w, ReadKey(r, found)))
  {
    var n := Apply(w, ReadKey(r, found));
    if n != w { OneRequestKeepsSound(w, r, n.requests[r]); }
  }

  lemma BindKeepsSound(w: World, r: int)
    requires Sound(w)
    ensures Sound(Apply(w, Bind(r)))
  {
    if r in w.requests && w.requests[r].phase.Unbound? {
      var q := w.requests[r];
      var id := q.phase.id;
      assert RequestSound(w.keys, w.ever, q);
      if CanBind(w.keys, id) {
        var keys := Bound(w.keys, id, q.machineID);
        WithKeysKeepsSound(w, keys, w.ever);
        OneRequestKeepsSound(WithKeys(w, keys), r, WithKeys(w, keys).requests[r].(phase := Accepted(id)));
      } else {
        OneRequestKeepsSound(w, r, q.(phase := Beaten(id)));
      }
    }
  }

  lemma RereadKeepsSound(w: World, r: int)
    requires Sound(w)
    ensures Sound(Apply(w, Reread(r)))
  {
    var n := Apply(w, Reread(r));
    if r in w.requests && w.requests[r].phase.Beaten? {
      assert RequestSound(w.keys, w.ever, w.requests[r]);
      OneRequestKeepsSound(w, r, n.requests[r]);
    }
  }

  lemma StepKeepsSound(w: World, s: Step)
    requires Sound(w) && Enabled(w, s)
    ensures Sound(Apply(w, s))
  {
    match s
    case Begin(r, rawKey, machineID) => OneRequestKeepsSound(w, r, Request(rawKey, machineID, Started, {}));
    case ReadKey(r, found) => ReadKeepsSound(w, r, found);
    case Bind(r) => BindKeepsSound(w, r);
    case Reread(r) => RereadKeepsSound(w, r);
    case Unbind(id) => if id in w.keys { WithKeysKeepsSound(w, w.keys[id := w.keys[id].(machineID := "")], w.ever); }
    case Toggle(id) =>
      if id in w.keys { WithKeysKeepsSound(w, w.keys[id := w.keys[id].(active := !w.keys[id].active)], w.ever); }
    case Delete(id) => WithKeysKeepsSound(w, w.keys - {id}, w.ever);
    case Create(id, key) =>
      assert forall r :: r in w.requests ==> RequestSound(w.keys, w.ever, w.requests[r]);
      WithKeysKeepsSound(w, w.keys[id := key], w.ever + {id});
  }

  /** Under every interleaving each accepted request carries a machine ID the key row held
      at some instant during that request. */
  lemma {:induction false} AcceptedWasHeld(w: World, steps: seq<Step>, r: int)
    requires Sound(w) && AllEnabled(w, steps)
    ensures Sound(Run(w, steps))
    ensures r in Run(w, steps).requests && Run(w, steps).requests[r].phase.Accepted? ==>
              Run(w, steps).requests[r].machineID in Run(w, steps).requests[r].held
    decreases |steps|
  {
    if steps == [] {
    } else {
      StepKeepsSound(w, steps[0]);
      AcceptedWasHeld(Apply(w, steps[0]), steps[1..], r);
    }
  }

  // Request r was accepted for the key.
  predicate AcceptedFor(w: World, id: int, r: int) { r in w.requests && w.requests[r].phase == Accepted(id) }

  // It carries what the key's row holds while the row exists.
  predicate AgreesWithRow(w: World, id: int, r: int) {
    AcceptedFor(w, id, r) && id in w.keys ==> w.keys[id].machineID == w.requests[r].machineID
  }

  predicate Agree(w: World, id: int, r: int, q: int) {
    AcceptedFor(w, id, r) && AcceptedFor(w, id, q) ==> w.requests[r].machineID == w.requests[q].machineID
  }

  // All accepted requests of the key agree, and with its row while it exists.
  ghost predicate OneMachine(w: World, id: int) {
    (forall r :: AgreesWithRow(w, id, r)) && (forall r, q :: Agree(w, id, r, q))
  }

  // A request that a step leaves accepted was accepted before on the same key, or carries
  // what the row holds now.
  lemma AcceptedBefore(w: World, s: Step, id: int, r: int)
    requires Sound(w) && Enabled(w, s) && s != Unbind(id) && AcceptedFor(Apply(w, s), id, r)
    ensures var n := Apply(w, s); var machine := n.requests[r].machineID;
            || (AcceptedFor(w, id, r) && w.requests[r].machineID == machine)
            || (id in n.keys && n.keys[id].machineID == machine && machine != "" && id in w.keys
                && (w.keys[id].machineID == "" || w.keys[id].machineID == machine))
  {
  }

  // Without an unbind of its key a bound row keeps its machine.
  lemma BoundStays(w: World, s: Step, id: int)
    requires Sound(w) && Enabled(w, s) && s != Unbind(id)
    ensures id in w.keys && w.keys[id].machineID != "" && id in Apply(w, s).keys ==>
              Apply(w, s).keys[id].machineID == w.keys[id].machineID
    ensures id in w.ever && id in Apply(w, s).keys ==> id in w.keys
  {
  }

  lemma StepKeepsOneMachine(w: World, s: Step, id: int)
    requires Sound(w) && OneMachine(w, id) && Enabled(w, s) && s != Unbind(id)
    ensures OneMachine(Apply(w, s), id)
  {
    var n := Apply(w, s);
    BoundStays(w, s, id);
    forall r ensures AgreesWithRow(n, id, r) {
      assert AgreesWithRow(w, id, r);
      if AcceptedFor(n, id, r) { AcceptedBefore(w, s, id, r); }
    }
    forall r, q ensures Agree(n, id, r, q) {
      assert AgreesWithRow(n, id, r) && AgreesWithRow(n, id, q);
      assert AgreesWithRow(w, id, r) && AgreesWithRow(w, id, q) && Agree(w, id, r, q);
      if AcceptedFor(n, id, r) && AcceptedFor(n, id, q) {
        AcceptedBefore(w, s, id, r);
        AcceptedBefore(w, s, id, q);
      }
    }
  }

  /** In a run without an unbind of the key all accepted requests for it carry one machine ID,
      whatever is toggled, deleted, created or unbound of other keys. */
  lemma {:induction false} WithoutUnbindOneMachine(w: World, steps: seq<Step>, id: int)
    requires Sound(w) && OneMachine(w, id) && AllEnabled(w, steps)
    requires Unbind(id) !in steps
    ensures Sound(Run(w, steps)) && OneMachine(Run(w, steps), id)
    decreases |steps|
  {
    if steps == [] {
    } else {
      StepKeepsSound(w, steps[0]);
      StepKeepsOneMachine(w, steps[0], id);
      WithoutUnbindOneMachine(Apply(w, steps[0]), steps[1..], id);
    }
  }

  /** An unbind in between really lets a second machine in. */
  lemma UnbindLetsAnotherIn(k: Key, m1: string, m2: string)
    requires k.active && k.keyType == SERVER && k.machineID == "" && m1 != "" && m2 != "" && m1 != m2
    ensures var w := World(map[7 := k], {7}, map[]);
            var steps := [Begin(1, k.value, m1), ReadKey(1, Some(7)), Bind(1), Unbind(7),
                          Begin(2, k.value, m2), ReadKey(2, Some(7)), Bind(2)];
            && Sound(w) && OneMachine(w, 7) && !OneMachine(Run(w, steps), 7)
  {
    var w := World(map[7 := k], {7}, map[]);
    var steps := [Begin(1, k.value, m1), ReadKey(1, Some(7)), Bind(1), Unbind(7),
                  Begin(2, k.value, m2), ReadKey(2, Some(7)), Bind(2)];
    RunSeven(w, steps);
    var w1 := FirstUse(w, 1, m1);
    var w2 := Apply(w1, Unbind(7));
    assert w2.keys == map[7 := k] && 2 !in w2.requests;
    var w3 := FirstUse(w2, 2, m2);
    assert w3 == Run(w, steps);
    assert !Agree(w3, 7, 1, 2);
  }

  // A machine that uses the unbound key 7 undisturbed is accepted.
  lemma FirstUse(w: World, r: int, m: string) returns (n: World)
    requires 7 in w.keys && w.keys[7].active && w.keys[7].keyType == SERVER && w.keys[7].machineID == "" && m != ""
    requires r !in w.requests
    ensures n == Apply(Apply(Apply(w, Begin(r, w.keys[7].value, m)), ReadKey(r, Some(7))), Bind(r))
    ensures r in n.requests && n.requests[r].phase == Accepted(7) && n.requests[r].machineID == m
    ensures forall q :: q in w.requests ==> q in n.requests && (w.requests[q].phase == Accepted(7) ==>
        n.requests[q] == w.requests[q])
    ensures n.keys == w.keys[7 := w.keys[7].(machineID := m)]
    ensures n.requests.Keys == w.requests.Keys + {r}
  {
    n := Apply(Apply(Apply(w, Begin(r, w.keys[7].value, m)), ReadKey(r, Some(7))), Bind(r));
  }

  lemma RunSeven(w: World, steps: seq<Step>)
    requires |steps| == 7
    ensures Run(w, steps) ==
            Apply(Apply(Apply(Apply(Apply(Apply(Apply(w, steps[0]), steps[1]), steps[2]), steps[3]), steps[4]),
                steps[5]), steps[6])
  {
    var w1, s1 := Apply(w, steps[0]), steps[1..];
    var w2, s2 := Apply(w1, s1[0]), s1[1..];
    var w3, s3 := Apply(w2, s2[0]), s2[1..];
    var w4, s4 := Apply(w3, s3[0]), s3[1..];
    var w5, s5 := Apply(w4, s4[0]), s4[1..];
    var w6, s6 := Apply(w5, s5[0]), s5[1..];
    assert Run(w, steps) == Run(w1, s1) == Run(w2, s2) == Run(w3, s3);
    assert Run(w3, s3) == Run(w4, s4) == Run(w5, s5) == Run(w6, s6);
    assert Run(w6, s6) == Run(Apply(w6, s6[0]), s6[1..]) == Apply(w6, s6[0]);
  }

  // ---------------------------------------------------------------- one request at a time

  class AuthService {
    var keys: Keys

    /** BindAPIKeyMachineID: the first machine wins.  Afterwards the key is bound, to this
        machine if it was free and to the same one as before if not, and no later bind of
        it changes anything. */
    method BindAPIKeyMachineID(id: int, machineID: string) returns (bound: bool)
      modifies this
      ensures bound <==> CanBind(old(keys), id)
      ensures keys == Bound(old(keys), id, machineID)
      ensures keys.Keys == old(keys.Keys)
      ensures id in keys ==> keys[id].machineID == if old(keys)[id].machineID == "" then machineID
          else old(keys)[id].machineID
      ensures forall k :: k in keys && (k != id || old(keys)[k].machineID != "") ==> keys[k] == old(keys)[k]
      ensures machineID != "" ==> forall other :: Bound(keys, id, other) == keys
      ensures UniqueValues(old(keys)) ==> UniqueValues(keys)
    {
      bound := id in keys && keys[id].machineID == "";
      if bound {
        keys := keys[id := keys[id].(machineID := machineID)];
      }
    }

    /** ValidateServerKey without interference: accepted exactly when an active server key
        of that value is unbound or bound to this machine; then it is bound to it, and
        nothing else changes. */
    method ValidateServerKey(rawKey: string, machineID: string) returns (error: Option<Error>)
      requires UniqueValues(keys)
      modifies this
      ensures error.None? <==>
              machineID != "" && exists id :: id in old(keys) && old(keys)[id].value == rawKey && old(keys)[id].active
                                              && old(keys)[id].keyType == SERVER
                                              && (old(keys)[id].machineID == "" || old(keys)[id].machineID == machineID)
      ensures error == Some(InvalidKey) <==>
              forall id :: id in old(keys) && old(keys)[id].value == rawKey ==> !old(keys)[id].active
      ensures error == Some(WrongKeyType) <==>
              exists id :: id in old(keys) && old(keys)[id].value == rawKey && old(keys)[id].active
                           && old(keys)[id].keyType != SERVER
      ensures error.None? ==> forall id :: id in old(keys) && old(keys)[id].value == rawKey ==>
                                             keys == old(keys)[id := old(keys)[id].(machineID := machineID)]
      ensures error.Some? ==> keys == old(keys)
    {
      if id :| id in keys && keys[id].value == rawKey {
        var k := keys[id];
        if !k.active {
          return Some(InvalidKey);
        }
        if k.keyType != SERVER {
          return Some(WrongKeyType);
        }
        if machineID == "" {
          return Some(WrongMachine);
        }
        if k.machineID == "" {
          var bound := BindAPIKeyMachineID(id, machineID);
          assert bound;
          return None;
        }
        if k.machineID != machineID {
          return Some(WrongMachine);
        }
        assert keys[id := keys[id].(machineID := machineID)] == keys;
        return None;
      }
      error := Some(InvalidKey);
    }
  }
}
