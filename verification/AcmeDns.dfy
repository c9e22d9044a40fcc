/** acme-dns challenge updates: the stored pair of values, and the TXT RRset that publishes it. */
module AcmeDns {
  import opened Text
  import opened Rdata
  import opened ZoneData

  datatype Registration = Registration(
    subdomain: string, password: string, zone: string, fulldomain: string,
    txtValue: Option<string>, txtValuePrev: Option<string>)

  /** Registrations by user name. */
  type Registrations = map<string, Registration>

  datatype Status = Ok200 | Unauthorized | Forbidden | InternalError

  /** What becomes of the three DNS messages of one update. */
  datatype Calls = Calls(remove: Outcome, current: Outcome, previous: Outcome)

  datatype Request = Request(user: string, password: string, subdomain: string, txt: string)

  function Rotated(regs: Registrations, subdomain: string, txt: string): Registrations {
    map user | user in regs ::
      if regs[user].subdomain == subdomain
      then regs[user].(txtValuePrev := regs[user].txtValue, txtValue := Some(txt))
      else regs[user]
  }

  predicate Admitted(regs: Registrations, req: Request) {
    && req.user in regs
    && regs[req.user].password == req.password
    && regs[req.user].subdomain == req.subdomain
  }

  function TxtKey(reg: Registration): RrKey {
    RrKey(reg.zone, reg.fulldomain + ".", TXT_TYPE)
  }

  /** Delete, append the current value, append the previous one; the first failure of the first two
      ends the update. `reg` is the row after rotation. */
  function Published(syn: Syntax, data: Data, reg: Registration, txt: string, calls: Calls): Data {
    var fqdn := reg.fulldomain + ".";
    var (cleared, removed) := DeleteRecord(data, reg.zone, fqdn, TXT_TYPE, calls.remove);
    if !removed then cleared
    else
      var (one, added) := AppendRecord(syn, cleared, reg.zone, fqdn, TXT_TYPE, txt, calls.current);
      if !added || reg.txtValuePrev.None? || reg.txtValuePrev.value == "" then one
      else AppendRecord(syn, one, reg.zone, fqdn, TXT_TYPE, reg.txtValuePrev.value, calls.previous).0
  }

  class AcmeDnsStore {
    var registrations: Registrations

    constructor (registrations: Registrations)
      ensures this.registrations == registrations
    {
      this.registrations := registrations;
    }

    method UpdateAcmeDnsTxt(subdomain: string, txt: string)
      modifies this
      ensures registrations == Rotated(old(registrations), subdomain, txt)
    {
      registrations := map user | user in registrations ::
        if registrations[user].subdomain == subdomain
        then registrations[user].(txtValuePrev := registrations[user].txtValue, txtValue := Some(txt))
        else registrations[user];
    }
  }

  method UpdateHandler(
    store: AcmeDnsStore, knot: Knot, syn: Syntax, updaters: set<string>, req: Request, calls: Calls)
    returns (status: Status)
    modifies store, knot
    ensures (store.registrations, knot.data) ==
            After(syn, updaters, old(store.registrations), old(knot.data), req, calls)
    ensures var regs := old(store.registrations);
            status == if req.user !in regs || regs[req.user].password != req.password then Unauthorized
                      else if regs[req.user].subdomain != req.subdomain then Forbidden
                      else if && regs[req.user].zone in updaters
                              && calls.remove.Applied? && calls.current.Applied? then Ok200
                      else InternalError
    ensures status == Unauthorized || status == Forbidden ==>
              store.registrations == old(store.registrations) && knot.data == old(knot.data)
  {
    if req.user !in store.registrations {
      return Unauthorized;
    }
    var registration := store.registrations[req.user];
    if registration.password != req.password {
      return Unauthorized;
    }
    if registration.subdomain != req.subdomain {
      return Forbidden;
    }
    store.UpdateAcmeDnsTxt(req.subdomain, req.txt);
    if registration.zone !in updaters {
      return InternalError;
    }
    var fqdn := registration.fulldomain + ".";
    var removed := knot.SendDeleteRecord(registration.zone, fqdn, TXT_TYPE, calls.remove);
    if !removed {
      return InternalError;
    }
    var added := knot.SendAppendRecord(syn, registration.zone, fqdn, TXT_TYPE, req.txt, calls.current);
    if !added {
      return InternalError;
    }
    var refreshed := store.registrations[req.user];
    if refreshed.txtValuePrev.Some? && refreshed.txtValuePrev.value != "" {
      var _ := knot.SendAppendRecord(syn, registration.zone, fqdn, TXT_TYPE, refreshed.txtValuePrev.value,
                                     calls.previous);
    }
    return Ok200;
  }

  // -------------------------------------------------------------------------
  // Histories
  // -------------------------------------------------------------------------

  function RegistrationsAfter(regs: Registrations, req: Request): Registrations {
    if Admitted(regs, req) then Rotated(regs, req.subdomain, req.txt) else regs
  }

  function After(
    syn: Syntax, updaters: set<string>, regs: Registrations, data: Data, req: Request, calls: Calls)
    : (Registrations, Data)
  {
    var next := RegistrationsAfter(regs, req);
    if !Admitted(regs, req) || regs[req.user].zone !in updaters then (next, data)
    else (next, Published(syn, data, next[req.user], req.txt, calls))
  }

  datatype Update = Update(req: Request, calls: Calls)

  /** Successive contents of the store and the zone. */
  datatype State = State(regs: Registrations, data: Data)

  ghost predicate Stepped(syn: Syntax, updaters: set<string>, s: State, update: Update, s': State) {
    (s'.regs, s'.data) == After(syn, updaters, s.regs, s.data, update.req, update.calls)
  }

  ghost predicate StepAt(syn: Syntax, updaters: set<string>, states: seq<State>, updates: seq<Update>, i: nat) {
    i < |updates| && i + 1 < |states| && Stepped(syn, updaters, states[i], updates[i], states[i + 1])
  }

  ghost predicate History(syn: Syntax, updaters: set<string>, states: seq<State>, updates: seq<Update>) {
    && |states| == |updates| + 1
    && forall i: nat | i < |updates| :: StepAt(syn, updaters, states, updates, i)
  }

  /** No CNAME stands at a challenge name. */
  ghost predicate NoCnames(regs: Registrations, data: Data) {
    forall u | u in regs :: RRset(data, TxtKey(regs[u]).(rtype := CNAME_TYPE)) == {}
  }

  /** Distinct users have distinct subdomains and domain names. */
  ghost predicate Separate(regs: Registrations) {
    forall a, b | a in regs && b in regs && a != b ::
      regs[a].subdomain != regs[b].subdomain && TxtKey(regs[a]) != TxtKey(regs[b])
  }

  /** The fixed part of a registration. */
  predicate SameAccount(a: Registration, b: Registration) {
    a.subdomain == b.subdomain && a.password == b.password && a.zone == b.zone && a.fulldomain == b.fulldomain
  }

  /** The value the user's registration holds after `n` updates. */
  function Current(regs: Registrations, user: string, updates: seq<Update>, n: nat): Option<string>
    requires n <= |updates| && user in regs
  {
    if n == 0 then regs[user].txtValue
    else if updates[n - 1].req.user == user && Admitted(regs, updates[n - 1].req) then Some(updates[n - 1].req.txt)
    else Current(regs, user, updates, n - 1)
  }

  /** What the store has accepted after `n` updates. */
  ghost predicate Accepted(regs: Registrations, r: Registrations, updates: seq<Update>, n: nat)
    requires n <= |updates|
  {
    && r.Keys == regs.Keys
    && forall u | u in regs :: SameAccount(r[u], regs[u]) && r[u].txtValue == Current(regs, u, updates, n)
  }

  ghost predicate Tracks(regs: Registrations, s: State, updates: seq<Update>, n: nat)
    requires n <= |updates|
  {
    Accepted(regs, s.regs, updates, n) && NoCnames(regs, s.data)
  }

  lemma AppendTxt(syn: Syntax, data: Data, key: RrKey, text: string, outcome: Outcome, other: RrKey)
    requires key.rtype == TXT_TYPE && EndsWith(key.name, ".")
    requires RRset(data, key.(rtype := CNAME_TYPE)) == {}
    ensures var (next, ok) := AppendRecord(syn, data, key.zone, key.name, TXT_TYPE, text, outcome);
            && RRset(next, other) ==
               (if other == key && !outcome.Rejected? then RRset(data, key) + {TXT([text])} else RRset(data, other))
            && ok == outcome.Applied?
  {
  }

  lemma FqdnEndsWithDot(reg: Registration)
    ensures EndsWith(TxtKey(reg).name, ".")
  {
    var name := reg.fulldomain + ".";
    assert name[|name| - 1..] == ".";
  }

  /** Publishing touches one TXT RRset; when every message is applied it holds the new value and the
      previous one. */
  lemma PublishedAt(syn: Syntax, data: Data, reg: Registration, txt: string, calls: Calls, other: RrKey)
    requires RRset(data, TxtKey(reg).(rtype := CNAME_TYPE)) == {}
    ensures other != TxtKey(reg) ==> RRset(Published(syn, data, reg, txt, calls), other) == RRset(data, other)
    ensures calls == Calls(Applied, Applied, Applied) ==>
              RRset(Published(syn, data, reg, txt, calls), TxtKey(reg)) == Window(Some(txt), reg.txtValuePrev)
  {
    var key := TxtKey(reg);
    FqdnEndsWithDot(reg);
    var cleared := DeleteRecord(data, reg.zone, key.name, TXT_TYPE, calls.remove).0;
    assert forall k :: k != key ==> RRset(cleared, k) == RRset(data, k);
    AppendTxt(syn, cleared, key, txt, calls.current, other);
    AppendTxt(syn, cleared, key, txt, calls.current, key);
    AppendTxt(syn, cleared, key, txt, calls.current, key.(rtype := CNAME_TYPE));
    var one := AppendRecord(syn, cleared, reg.zone, key.name, TXT_TYPE, txt, calls.current).0;
    if reg.txtValuePrev.Some? {
      AppendTxt(syn, one, key, reg.txtValuePrev.value, calls.previous, other);
      AppendTxt(syn, one, key, reg.txtValuePrev.value, calls.previous, key);
    }
  }

  /** What an update leaves in its TXT RRset, message by message: nothing happens after the first that is not
      acknowledged. */
  lemma PublishedByMessages(syn: Syntax, data: Data, reg: Registration, txt: string, calls: Calls)
    requires RRset(data, TxtKey(reg).(rtype := CNAME_TYPE)) == {}
    ensures RRset(Published(syn, data, reg, txt, calls), TxtKey(reg)) ==
            match calls.remove
            case Rejected => RRset(data, TxtKey(reg))
            case Unacknowledged => {}
            case Applied =>
              match calls.current
              case Rejected => {}
              case Unacknowledged => {TXT([txt])}
              case Applied =>
                if calls.previous.Rejected? then {TXT([txt])} else Window(Some(txt), reg.txtValuePrev)
  {
    var key := TxtKey(reg);
    FqdnEndsWithDot(reg);
    var cleared := DeleteRecord(data, reg.zone, key.name, TXT_TYPE, calls.remove).0;
    AppendTxt(syn, cleared, key, txt, calls.current, key);
    AppendTxt(syn, cleared, key, txt, calls.current, key.(rtype := CNAME_TYPE));
    var one := AppendRecord(syn, cleared, reg.zone, key.name, TXT_TYPE, txt, calls.current).0;
    if reg.txtValuePrev.Some? {
      AppendTxt(syn, one, key, reg.txtValuePrev.value, calls.previous, key);
    }
  }

  /** The TXT data a pair of stored values stands for. */
  function Window(current: Option<string>, previous: Option<string>): set<RData> {
    (if current.Some? then {TXT([current.value])} else {})
    + (if previous.Some? && previous.value != "" then {TXT([previous.value])} else {})
  }

  lemma StoreStep(regs: Registrations, r: Registrations, updates: seq<Update>, n: nat)
    requires n < |updates| && Separate(regs) && Accepted(regs, r, updates, n)
    ensures Accepted(regs, RegistrationsAfter(r, updates[n].req), updates, n + 1)
  {
    var req := updates[n].req;
    var next := RegistrationsAfter(r, req);
    assert req.user in regs ==> SameAccount(r[req.user], regs[req.user]);
    forall u | u in regs
      ensures SameAccount(next[u], regs[u]) && next[u].txtValue == Current(regs, u, updates, n + 1)
    {
      assert SameAccount(r[u], regs[u]);
    }
  }

  lemma ZoneStep(
    syn: Syntax, updaters: set<string>, regs: Registrations, s: State, s': State, updates: seq<Update>, n: nat)
    requires n < |updates| && Separate(regs) && Tracks(regs, s, updates, n)
    requires Stepped(syn, updaters, s, updates[n], s')
    ensures NoCnames(regs, s'.data)
  {
    var (req, calls) := (updates[n].req, updates[n].calls);
    if Admitted(s.regs, req) {
      assert SameAccount(s.regs[req.user], regs[req.user]);
      forall u | u in regs ensures RRset(s'.data, TxtKey(regs[u]).(rtype := CNAME_TYPE)) == {} {
        PublishedAt(syn, s.data, s'.regs[req.user], req.txt, calls, TxtKey(regs[u]).(rtype := CNAME_TYPE));
      }
    }
  }

  lemma StepTracks(
    syn: Syntax, updaters: set<string>, states: seq<State>, updates: seq<Update>, n: nat)
    requires History(syn, updaters, states, updates) && n < |updates|
    requires Separate(states[0].regs) && Tracks(states[0].regs, states[n], updates, n)
    ensures Tracks(states[0].regs, states[n + 1], updates, n + 1)
  {
    var regs := states[0].regs;
    assert StepAt(syn, updaters, states, updates, n);
    ZoneStep(syn, updaters, regs, states[n], states[n + 1], updates, n);
    StoreStep(regs, states[n].regs, updates, n);
  }

  lemma {:induction false} StoreTracks(
    syn: Syntax, updaters: set<string>, states: seq<State>, updates: seq<Update>, n: nat)
    requires History(syn, updaters, states, updates) && n <= |updates|
    requires Separate(states[0].regs) && NoCnames(states[0].regs, states[0].data)
    ensures Tracks(states[0].regs, states[n], updates, n)
  {
    if n > 0 {
      StoreTracks(syn, updaters, states, updates, n - 1);
      StepTracks(syn, updaters, states, updates, n - 1);
    }
  }

  /** A complete update publishes its value and the one it replaced. */
  lemma OwnUpdate(syn: Syntax, updaters: set<string>, states: seq<State>, updates: seq<Update>, m: nat)
    requires History(syn, updaters, states, updates) && m < |updates|
    requires Separate(states[0].regs) && Tracks(states[0].regs, states[m], updates, m)
    requires Admitted(states[0].regs, updates[m].req) && states[0].regs[updates[m].req.user].zone in updaters
    requires updates[m].calls == Calls(Applied, Applied, Applied)
    ensures var (regs, req) := (states[0].regs, updates[m].req);
            RRset(states[m + 1].data, TxtKey(regs[req.user])) ==
            Window(Some(req.txt), Current(regs, req.user, updates, m))
  {
    var (regs, s, req) := (states[0].regs, states[m], updates[m].req);
    assert StepAt(syn, updaters, states, updates, m);
    assert SameAccount(s.regs[req.user], regs[req.user]);
    PublishedAt(syn, s.data, states[m + 1].regs[req.user], req.txt, updates[m].calls, TxtKey(regs[req.user]));
  }

  /** An update by someone else, or one the store refuses. */
  predicate Silent(regs: Registrations, update: Update, user: string) {
    update.req.user == user ==> !Admitted(regs, update.req)
  }

  /** It leaves the user's RRset alone. */
  lemma SilentUpdate(
    syn: Syntax, updaters: set<string>, states: seq<State>, updates: seq<Update>, n: nat, user: string)
    requires History(syn, updaters, states, updates) && n < |updates|
    requires Separate(states[0].regs) && Tracks(states[0].regs, states[n], updates, n)
    requires user in states[0].regs && Silent(states[0].regs, updates[n], user)
    ensures RRset(states[n + 1].data, TxtKey(states[0].regs[user])) ==
            RRset(states[n].data, TxtKey(states[0].regs[user]))
  {
    var (regs, s, req) := (states[0].regs, states[n], updates[n].req);
    assert StepAt(syn, updaters, states, updates, n);
    assert req.user in regs ==> SameAccount(s.regs[req.user], regs[req.user]);
    if Admitted(s.regs, req) {
      PublishedAt(syn, s.data, states[n + 1].regs[req.user], req.txt, updates[n].calls, TxtKey(regs[user]));
    }
  }

  lemma {:induction false} WindowStands(
    syn: Syntax, updaters: set<string>, states: seq<State>, updates: seq<Update>, user: string, i: nat, n: nat)
    requires History(syn, updaters, states, updates) && i <= n <= |updates|
    requires Separate(states[0].regs) && NoCnames(states[0].regs, states[0].data) && user in states[0].regs
    requires forall k | i <= k < n :: Silent(states[0].regs, updates[k], user)
    ensures RRset(states[n].data, TxtKey(states[0].regs[user])) == RRset(states[i].data, TxtKey(states[0].regs[user]))
    decreases n
  {
    if i < n {
      WindowStands(syn, updaters, states, updates, user, i, n - 1);
      StoreTracks(syn, updaters, states, updates, n - 1);
      SilentUpdate(syn, updaters, states, updates, n - 1, user);
    }
  }

  /** After any history of updates by any users, if the user's last accepted update (the `m`th) had
      every DNS message applied, the TXT RRset is exactly its value and, when not empty, the value
      accepted before it, however the earlier updates fared in the DNS. */
  lemma TwoValueWindow(
    syn: Syntax, updaters: set<string>, states: seq<State>, updates: seq<Update>, user: string, m: nat, n: nat)
    requires History(syn, updaters, states, updates) && m < n <= |updates|
    requires Separate(states[0].regs) && NoCnames(states[0].regs, states[0].data)
    requires user in states[0].regs && states[0].regs[user].zone in updaters
    requires updates[m].req.user == user && Admitted(states[0].regs, updates[m].req)
    requires updates[m].calls == Calls(Applied, Applied, Applied)
    requires forall i | m < i < n :: Silent(states[0].regs, updates[i], user)
    ensures RRset(states[n].data, TxtKey(states[0].regs[user])) ==
            Window(Some(updates[m].req.txt), Current(states[0].regs, user, updates, m))
  {
    WindowStands(syn, updaters, states, updates, user, m + 1, n);
    StoreTracks(syn, updaters, states, updates, m);
    OwnUpdate(syn, updaters, states, updates, m);
  }
}
