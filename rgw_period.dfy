/**
 * The acceptance rule of `POST /admin/realm/period`
 * (`RGWOp_Period_Post::execute` in src/rgw/rgw_rest_realm.cc): a zone
 * receives a period pushed to it and decides whether the period replaces
 * the realm's current period, only raises its epoch, or is refused.
 *
 * Decoding the JSON body and writing the period to RADOS (`store_info`)
 * are inputs: the body arrives already parsed or as a decode error, and the
 * period store answers each write with a status code.
 */
module RealmPeriod {
  import opened Errno

  /** The fields of the pushed period that the rule reads or writes. */
  datatype Period = Period(id: string, epoch: nat, predecessor: string, masterZone: string, latestEpoch: nat)

  /** The zone's current period: its id and epoch. */
  datatype CurrentPeriod = CurrentPeriod(id: string, epoch: nat)

  /** The request body: a decoded period, or the (negative) error of decoding it. */
  datatype JsonInput = Parsed(period: Period) | Malformed(err: int)

  /** What the rule decides about a decoded period, before anything is written. */
  datatype Decision =
    | Refuse(err: int)
    /** A successor of the current period: store it and make it the realm's current period. */
    | Switch
    /** A newer epoch of the current period: store it with its latest epoch raised. */
    | RaiseEpoch

  /** The validation chain of `execute`, in the order the source checks it. */
  function Decide(p: Period, current: CurrentPeriod, localZone: string): Decision
  {
    if p.masterZone == localZone then Refuse(-EINVAL)
    else if p.id != current.id then
      if p.predecessor != current.id then Refuse(-ENOENT) else Switch
    else if p.epoch <= current.epoch then Refuse(-EEXIST)
    else RaiseEpoch
  }

  /** The observable result of one request: the status, the periods written in order, the realm's current period. */
  datatype Outcome = Outcome(status: int, writes: seq<Period>, realmPeriod: string)

  /**
   * The whole request: `first` and `second` are the store's answers to the
   * first and second `store_info` of this request, `realmPeriod` the realm's
   * current period before it.
   */
  function Post(input: JsonInput, current: CurrentPeriod, localZone: string, realmPeriod: string,
                first: int, second: int): Outcome
  {
    match input
    case Malformed(err) => Outcome(err, [], realmPeriod)
    case Parsed(p) =>
      match Decide(p, current, localZone)
      case Refuse(err) => Outcome(err, [], realmPeriod)
      case Switch =>
        if first < 0 then Outcome(first, [p], realmPeriod) else Outcome(first, [p], p.id)
      case RaiseEpoch =>
        var raised := p.(latestEpoch := p.epoch);
        if first < 0 then Outcome(first, [p], realmPeriod) else Outcome(second, [p, raised], realmPeriod)
  }

  // ---------------------------------------------------------------------
  // Properties of the rule

  /**
   * A pushed period is accepted exactly when it does not name this zone as
   * master and is either a successor of the current period or a newer epoch
   * of it.
   */
  lemma AcceptedIff(p: Period, current: CurrentPeriod, localZone: string)
    ensures !Decide(p, current, localZone).Refuse? <==>
            p.masterZone != localZone &&
            ((p.id != current.id && p.predecessor == current.id) ||
             (p.id == current.id && p.epoch > current.epoch))
  {
  }

  /** Each refusal code stands for exactly one failed check. */
  lemma RefusalCodes(p: Period, current: CurrentPeriod, localZone: string)
    ensures Decide(p, current, localZone) == Refuse(-EINVAL) <==> p.masterZone == localZone
    ensures Decide(p, current, localZone) == Refuse(-ENOENT) <==>
            p.masterZone != localZone && p.id != current.id && p.predecessor != current.id
    ensures Decide(p, current, localZone) == Refuse(-EEXIST) <==>
            p.masterZone != localZone && p.id == current.id && p.epoch <= current.epoch
  {
  }

  /**
   * Once an accepted period has become the current one (same id, same
   * epoch), pushing it again is refused as not newer.
   */
  lemma ReplayRefused(p: Period, current: CurrentPeriod, localZone: string)
    requires !Decide(p, current, localZone).Refuse?
    ensures Decide(p, CurrentPeriod(p.id, p.epoch), localZone) == Refuse(-EEXIST)
  {
  }

  /**
   * The request succeeds exactly when the body decodes, the period is
   * accepted, and every write it needs succeeds.
   */
  lemma PostSucceedsIff(input: JsonInput, current: CurrentPeriod, localZone: string, realmPeriod: string,
                        first: int, second: int)
    requires input.Malformed? ==> input.err < 0
    ensures Post(input, current, localZone, realmPeriod, first, second).status >= 0 <==>
            input.Parsed? && first >= 0 &&
            match Decide(input.period, current, localZone)
            case Refuse(_) => false
            case Switch => true
            case RaiseEpoch => second >= 0
  {
  }

  /** A refused or undecodable period is never written and never changes the realm. */
  lemma RefusedHasNoEffect(input: JsonInput, current: CurrentPeriod, localZone: string, realmPeriod: string,
                           first: int, second: int)
    requires input.Malformed? || Decide(input.period, current, localZone).Refuse?
    ensures var o := Post(input, current, localZone, realmPeriod, first, second);
            o.writes == [] && o.realmPeriod == realmPeriod &&
            o.status == (if input.Malformed? then input.err else Decide(input.period, current, localZone).err)
  {
  }

  /**
   * The realm's current period moves only to a stored successor of the
   * current period; a newer epoch never moves it.
   */
  lemma RealmMovesOnlyToStoredSuccessor(input: JsonInput, current: CurrentPeriod, localZone: string,
                                        realmPeriod: string, first: int, second: int)
    ensures var o := Post(input, current, localZone, realmPeriod, first, second);
            o.realmPeriod != realmPeriod ==>
              input.Parsed? && Decide(input.period, current, localZone) == Switch && first >= 0 &&
              o.realmPeriod == input.period.id && o.writes == [input.period]
    ensures input.Parsed? && Decide(input.period, current, localZone) == Switch && first >= 0 ==>
              Post(input, current, localZone, realmPeriod, first, second).realmPeriod == input.period.id
  {
  }

  /**
   * A newer epoch is written twice when the first write succeeds: as
   * received, then with its latest epoch raised to its epoch; a failed
   * first write stops the request.
   */
  lemma RaiseEpochWrites(p: Period, current: CurrentPeriod, localZone: string, realmPeriod: string,
                         first: int, second: int)
    requires Decide(p, current, localZone) == RaiseEpoch
    ensures var o := Post(Parsed(p), current, localZone, realmPeriod, first, second);
            o.realmPeriod == realmPeriod &&
            (first < 0 ==> o.writes == [p] && o.status == first) &&
            (first >= 0 ==> |o.writes| == 2 && o.writes[0] == p && o.writes[1].latestEpoch == p.epoch &&
                            o.writes[1] == p.(latestEpoch := p.epoch) && o.status == second)
  {
  }

  // ---------------------------------------------------------------------
  // The objects the handler touches

  /** The realm: only its current-period pointer matters here. */
  class Realm {
    var currentPeriod: string

    constructor (currentPeriod: string)
      ensures this.currentPeriod == currentPeriod
    {
      this.currentPeriod := currentPeriod;
    }

    method SetCurrentPeriod(id: string)
      modifies this
      ensures currentPeriod == id
    {
      currentPeriod := id;
    }
  }

  /** The period store as an oracle: its k-th write answers `replies[k]` (0 once they run out). */
  class PeriodStore {
    const replies: seq<int>
    var writes: seq<Period>

    constructor (replies: seq<int>)
      ensures this.replies == replies && writes == []
    {
      this.replies := replies;
      writes := [];
    }

    function Reply(k: nat): int {
      if k < |replies| then replies[k] else 0
    }

    /** `RGWPeriod::store_info`: write the period, answer the status. */
    method StoreInfo(p: Period) returns (r: int)
      modifies this
      ensures writes == old(writes) + [p]
      ensures r == Reply(|old(writes)|)
    {
      r := Reply(|writes|);
      writes := writes + [p];
    }
  }

  /** The handler object: the period it decodes into and the status it replies with. */
  class PeriodPost {
    var period: Period
    var httpRet: int
    /** The local zone's id. */
    const zoneId: string
    /** The zone's current period, as loaded when the gateway started. */
    const current: CurrentPeriod
    const realm: Realm
    const store: PeriodStore

    constructor (zoneId: string, current: CurrentPeriod, realm: Realm, store: PeriodStore, period: Period)
      ensures this.zoneId == zoneId && this.current == current
      ensures this.realm == realm && this.store == store && this.period == period && httpRet == 0
    {
      this.zoneId := zoneId;
      this.current := current;
      this.realm := realm;
      this.store := store;
      this.period := period;
      httpRet := 0;
    }

    /** `execute`: decode, check, store, and update the realm or the period's latest epoch. */
    method Execute(input: JsonInput)
      requires input.Malformed? ==> input.err < 0
      modifies this, realm, store
      ensures var k := |old(store.writes)|;
              var o := Post(input, current, zoneId, old(realm.currentPeriod), store.Reply(k), store.Reply(k + 1));
              httpRet == o.status && store.writes == old(store.writes) + o.writes &&
              realm.currentPeriod == o.realmPeriod
      ensures input.Parsed? && Decide(input.period, current, zoneId) == RaiseEpoch &&
              store.Reply(|old(store.writes)|) >= 0 ==>
                period == input.period.(latestEpoch := input.period.epoch)
      ensures input.Parsed? && (Decide(input.period, current, zoneId) != RaiseEpoch ||
                                store.Reply(|old(store.writes)|) < 0) ==>
                period == input.period
      ensures input.Malformed? ==> period == old(period)
    {
      ghost var k := |store.writes|;
      if input.Malformed? {
        httpRet := input.err;
        return;
      }
      period := input.period;
      httpRet := 0;

      // nobody may push to the master zone
      if period.masterZone == zoneId {
        httpRet := -EINVAL;
        return;
      }

      if period.id != current.id {
        // a new period must follow the current one
        if period.predecessor != current.id {
          httpRet := -ENOENT;
          return;
        }
        httpRet := store.StoreInfo(period);
        if httpRet < 0 {
          return;
        }
        realm.SetCurrentPeriod(period.id);
        return;
      }

      if period.epoch <= current.epoch {
        httpRet := -EEXIST;
        return;
      }

      httpRet := store.StoreInfo(period);
      if httpRet < 0 {
        return;
      }
      period := period.(latestEpoch := period.epoch);
      httpRet := store.StoreInfo(period);
    }
  }

  /** A successor period pushed to a non-master zone becomes the realm's current period. */
  method SuccessorAccepted() returns (status: int, realmPeriod: string, writes: seq<Period>)
    ensures status == 0 && realmPeriod == "p2" && writes == [Period("p2", 1, "p1", "zoneA", 1)]
  {
    var realm := new Realm("p1");
    var store := new PeriodStore([]);
    var p := Period("p2", 1, "p1", "zoneA", 1);
    var op := new PeriodPost("zoneB", CurrentPeriod("p1", 3), realm, store, p);
    op.Execute(Parsed(p));
    status, realmPeriod, writes := op.httpRet, realm.currentPeriod, store.writes;
  }

  /** The same epoch pushed twice is refused the second time without a write. */
  method StaleEpochRefused() returns (status: int, writes: seq<Period>)
    ensures status == -EEXIST && writes == []
  {
    var realm := new Realm("p1");
    var store := new PeriodStore([]);
    var p := Period("p1", 3, "p0", "zoneA", 3);
    var op := new PeriodPost("zoneB", CurrentPeriod("p1", 3), realm, store, p);
    op.Execute(Parsed(p));
    status, writes := op.httpRet, store.writes;
  }
}
