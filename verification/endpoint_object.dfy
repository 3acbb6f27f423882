/** The endpoint's loops: joining the bus, and sending a message over whatever connection there is. */
module EndpointObjects {
  import opened Prelude
  import opened SharedMemories
  import opened Endpoints

  // ---------- joining ----------

  datatype LookUp = Found | NotInUse | WrongVersion | WrongToken | LookUpDenied | LookUpTimedOut | LookUpFailed
  datatype Register = Registered | InUse | RegisterDenied | RegisterFailed

  /** One turn of the join loop: what the two platform calls say, and whether the deadline has passed by then. */
  datatype Attempt = Attempt(lookUp: LookUp, register: Register, late: bool)

  datatype JoinError = VersionMismatch | TokenMismatch | TimedOut | PermissionDenied

  datatype Joining =
    | Looping(timeouts: nat, denials: nat)
    | AsClient
    | AsServer
    | Failed(error: JoinError)

  predicate Denied(a: Attempt, affinity: bool) {
    a.lookUp.LookUpDenied? || (a.lookUp.NotInUse? && affinity && a.register.RegisterDenied?)
  }

  /** How the loop goes on after a pause. */
  function Paused(a: Attempt, timeouts: nat, denials: nat): Joining {
    if a.late then Failed(TimedOut) else Looping(timeouts, denials)
  }

  function JoinStep(j: Joining, a: Attempt, affinity: bool): Joining {
    if !j.Looping? then j
    else if Denied(a, affinity) then
      if j.denials + 1 > 5 then Failed(PermissionDenied) else Paused(a, j.timeouts, j.denials + 1)
    else
      match a.lookUp
      case Found => AsClient
      case NotInUse =>
        if affinity && a.register.Registered? then AsServer
        else if affinity && a.register.InUse? then j
        else Paused(a, j.timeouts, j.denials)
      case WrongVersion => Failed(VersionMismatch)
      case WrongToken => Failed(TokenMismatch)
      case LookUpTimedOut =>
        if j.timeouts + 1 > 5 then Failed(VersionMismatch) else Paused(a, j.timeouts + 1, j.denials)
      case _ => Paused(a, j.timeouts, j.denials)
  }

  function JoinAll(script: seq<Attempt>, affinity: bool): Joining {
    if script == [] then Looping(0, 0)
    else JoinStep(JoinAll(script[..|script| - 1], affinity), script[|script| - 1], affinity)
  }

  /** How many of the attempts were denied: the look-up, or the registration of one that may be the controller. */
  function Denials(script: seq<Attempt>, affinity: bool): nat {
    if script == [] then 0
    else
      var a := script[|script| - 1];
      Denials(script[..|script| - 1], affinity) +
      if a.lookUp.LookUpDenied? || (a.lookUp.NotInUse? && affinity && a.register.RegisterDenied?) then 1 else 0
  }

  function Timeouts(script: seq<Attempt>): nat {
    if script == [] then 0
    else Timeouts(script[..|script| - 1]) + if script[|script| - 1].lookUp.LookUpTimedOut? then 1 else 0
  }

  /** The identifier is in use after all: look it up again at once. */
  predicate Retries(a: Attempt, affinity: bool) { a.lookUp.NotInUse? && affinity && a.register.InUse? }

  /** Does attempt `k` end the loop, if it is reached, and how? This looks at the attempt itself and counts denials and
      timeouts up to it, but knows nothing of the loop. */
  function Reason(script: seq<Attempt>, affinity: bool, k: nat): Option<Joining>
    requires k < |script|
  {
    var a := script[k];
    if a.lookUp.Found? then Some(AsClient)
    else if a.lookUp.NotInUse? && affinity && a.register.Registered? then Some(AsServer)
    else if a.lookUp.WrongVersion? then Some(Failed(VersionMismatch))
    else if a.lookUp.WrongToken? then Some(Failed(TokenMismatch))
    else if Denials(script[..k + 1], affinity) > 5 then Some(Failed(PermissionDenied))
    else if Timeouts(script[..k + 1]) > 5 then Some(Failed(VersionMismatch))
    else if a.late && !Retries(a, affinity) then Some(Failed(TimedOut))
    else None
  }

  ghost predicate Undecided(script: seq<Attempt>, affinity: bool, n: nat)
    requires n <= |script|
  {
    forall k: nat | k < n :: Reason(script, affinity, k).None?
  }

  lemma ReasonOfFront(script: seq<Attempt>, affinity: bool, k: nat)
    requires k < |script| - 1
    ensures Reason(script[..|script| - 1], affinity, k) == Reason(script, affinity, k)
  {
    assert script[..|script| - 1][..k + 1] == script[..k + 1];
  }

  lemma {:induction false} JoinCounts(script: seq<Attempt>, affinity: bool)
    ensures var j := JoinAll(script, affinity); j.Looping? ==>
      j == Looping(Timeouts(script), Denials(script, affinity)) && j.timeouts <= 5 && j.denials <= 5
  {
    if script != [] {
      JoinCounts(script[..|script| - 1], affinity);
    }
  }

  lemma LastReason(script: seq<Attempt>, affinity: bool)
    requires script != [] && JoinAll(script[..|script| - 1], affinity).Looping?
    ensures var reason := Reason(script, affinity, |script| - 1); var j := JoinAll(script, affinity);
      if reason.Some? then j == reason.value else j.Looping?
  {
    JoinCounts(script[..|script| - 1], affinity);
    assert script[..|script|] == script;
  }

  /** The verdict of `join`, exactly: it is given by the first attempt that ends the loop, and the loop goes on exactly as
      long as no attempt does. So five denials and five timeouts are survived, and the sixth is not. */
  lemma {:induction false} JoinVerdict(script: seq<Attempt>, affinity: bool, verdict: Joining)
    requires !verdict.Looping?
    ensures JoinAll(script, affinity) == verdict <==>
      exists n: nat :: n < |script| && Undecided(script, affinity, n) && Reason(script, affinity, n) == Some(verdict)
    ensures JoinAll(script, affinity).Looping? <==> Undecided(script, affinity, |script|)
  {
    if script != [] {
      var front, last := script[..|script| - 1], |script| - 1;
      JoinVerdict(front, affinity, verdict);
      forall k: nat | k < last ensures Reason(front, affinity, k) == Reason(script, affinity, k) {
        ReasonOfFront(script, affinity, k);
      }
      forall n: nat | n <= last ensures Undecided(front, affinity, n) <==> Undecided(script, affinity, n) {
      }
      if JoinAll(front, affinity).Looping? {
        LastReason(script, affinity);
      }
    }
  }

  /** `Rule::join`, as far as the script goes. */
  method Join(script: seq<Attempt>, affinity: bool) returns (result: Joining)
    ensures result == JoinAll(script, affinity)
  {
    var timeoutCount := 0;
    var permissionDeniedCount := 0;
    var i := 0;
    while i < |script|
      invariant i <= |script|
      invariant JoinAll(script[..i], affinity) == Looping(timeoutCount, permissionDeniedCount)
    {
      var a := script[i];
      assert script[..i + 1][..i] == script[..i];
      ghost var next := JoinAll(script[..i + 1], affinity);
      i := i + 1;
      var pause := true;
      match a.lookUp {
        case Found =>
          JoinSettles(script, i, affinity);
          return AsClient;
        case NotInUse =>
          if affinity {
            match a.register {
              case Registered =>
                JoinSettles(script, i, affinity);
                return AsServer;
              case InUse => pause := false;
              case RegisterDenied =>
                permissionDeniedCount := permissionDeniedCount + 1;
                if permissionDeniedCount > 5 {
                  JoinSettles(script, i, affinity);
                  return Failed(PermissionDenied);
                }
              case RegisterFailed =>
            }
          }
        case WrongVersion =>
          JoinSettles(script, i, affinity);
          return Failed(VersionMismatch);
        case WrongToken =>
          JoinSettles(script, i, affinity);
          return Failed(TokenMismatch);
        case LookUpDenied =>
          permissionDeniedCount := permissionDeniedCount + 1;
          if permissionDeniedCount > 5 {
            JoinSettles(script, i, affinity);
            return Failed(PermissionDenied);
          }
        case LookUpTimedOut =>
          timeoutCount := timeoutCount + 1;
          if timeoutCount > 5 {
            JoinSettles(script, i, affinity);
            return Failed(VersionMismatch);
          }
        case LookUpFailed =>
      }
      if pause && a.late {
        JoinSettles(script, i, affinity);
        return Failed(TimedOut);
      }
    }
    assert script[..i] == script;
    return Looping(timeoutCount, permissionDeniedCount);
  }

  lemma {:induction false} JoinSettles(script: seq<Attempt>, i: nat, affinity: bool)
    requires i <= |script| && !JoinAll(script[..i], affinity).Looping?
    ensures JoinAll(script, affinity) == JoinAll(script[..i], affinity)
    decreases |script|
  {
    if i < |script| {
      var front := script[..|script| - 1];
      assert front[..i] == script[..i];
      JoinSettles(front, i, affinity);
    } else {
      assert script[..i] == script;
    }
  }

  // ---------- sending ----------

  /** What other threads and the system do during one turn of the send loop: the rule found under the read lock, whether
      the frame goes out, the rule found under the write lock, and how a rejoin ends. */
  datatype Weather = Weather(atRead: Rule, delivered: bool, atWrite: Rule, joined: JoinResult)

  datatype SendOutcome = StillTrying | HandedOff | GaveUp

  // ---------- receiving ----------

  /** The same for one turn of the receive loop. */
  datatype RecvWeather = RecvWeather(atRead: Rule, got: RecvResult, atWrite: Rule, joined: JoinResult)

  datatype RecvOutcome = StillWaiting | Message | TimedOutWaiting | Undecodable | CannotRejoin

  /** Does this turn look at the network at all, or does it go straight to rejoin? */
  predicate Listens(w: RecvWeather) { w.atRead.Server? || w.atRead.hub }

  /** How the call ends in this turn, if it does. */
  function TurnOutcome(w: RecvWeather): RecvOutcome {
    if Listens(w) && w.got.GotMessage? then Message
    else if Listens(w) && w.got.GotTimeout? then TimedOutWaiting
    else if Listens(w) && w.got.GotGarbage? then Undecodable
    else if Listens(w) && w.got.GotForeign? then StillWaiting
    else if w.atRead.Client? && w.atWrite.Client? && w.atWrite.epoch == w.atRead.epoch && w.joined.JoinFailed? then CannotRejoin
    else StillWaiting
  }

  /** The endpoint behind the lock. */
  class Endpoint {
    const memory: SharedMemory
    var rule: Rule
    /** How often a message of this endpoint left for a controller, or entered the local queue. */
    ghost var sentOut: nat
    ghost var queued: nat

    constructor (memory: SharedMemory, rule: Rule)
      ensures this.memory == memory && this.rule == rule && sentOut == 0 && queued == 0
    {
      this.memory, this.rule := memory, rule;
      sentOut, queued := 0, 0;
    }

    /** `Rule::reader_close`. */
    method CloseReader()
      modifies this`rule
      ensures rule == ReaderClose(old(rule))
    {
      match rule {
        case Client(epoch, _, _) => rule := Client(epoch, false, true);
        case Server(_) => rule := Server(false);
      }
    }

    /** The section under the write lock. */
    method RejoinSection(epoch: nat, joined: JoinResult) returns (failed: bool)
      modifies this`rule
      ensures rule == Rejoin(old(rule), epoch, joined)
      ensures failed <==> old(rule).Client? && old(rule).epoch == epoch && joined.JoinFailed?
    {
      failed := false;
      match rule {
        case Server(_) =>
        case Client(epoch1, _, readerClosed) =>
          if epoch == epoch1 {
            rule := rule.(hub := false);
            match joined {
              case JoinFailed => return true;
              case JoinedClient => rule := Client((epoch + 1) % EPOCHS, true, false);
              case JoinedServer => rule := Server(true);
            }
            if readerClosed {
              CloseReader();
            }
          }
      }
    }

    /** `EndpointSender::send`, with any interference by other threads and for any number of disconnects, up to the end of
        the script. It hands the message off exactly once when it succeeds and never otherwise, and unless the frame went
        out to a controller, all counts are as they were. */
    method Send(regions: seq<nat>, script: seq<Weather>) returns (outcome: SendOutcome)
      requires memory.Valid() && forall r | r in regions :: r in memory.count
      modifies this, memory`count
      ensures memory.Valid()
      ensures sentOut + queued == old(sentOut + queued) + (if outcome.HandedOff? then 1 else 0)
      ensures sentOut >= old(sentOut) && queued >= old(queued)
      ensures sentOut == old(sentOut) ==> memory.count == old(memory.count)
      ensures sentOut > old(sentOut) ==> Raised(memory.count, old(memory.count), regions)
    {
      for i := 0 to |script|
        invariant memory.Valid() && memory.count == old(memory.count)
        invariant sentOut == old(sentOut) && queued == old(queued)
      {
        rule := script[i].atRead;
        match rule {
          case Server(_) =>
            queued := queued + 1;
            return HandedOff;
          case Client(epoch, _, _) =>
            var ok := memory.Send(regions, script[i].delivered);
            if ok {
              sentOut := sentOut + 1;
              return HandedOff;
            }
            rule := script[i].atWrite;
            var failed := RejoinSection(epoch, script[i].joined);
            if failed {
              return GaveUp;
            }
        }
      }
      return StillTrying;
    }

    /** `EndpointReceiver::recv` of a receiver that has not been dropped, so that it finds the reader open whenever it
        looks: neither `expect` is reached (the two asserts), the call ends with the first turn that decides it, and the
        reader is left open. */
    method Recv(script: seq<RecvWeather>) returns (outcome: RecvOutcome, ghost turn: nat)
      requires forall w | w in script :: !ReaderIsClosed(w.atRead) && !ReaderIsClosed(w.atWrite)
      requires forall w | w in script && w.atRead.Server? :: !w.got.GotDisconnect?
      requires !ReaderIsClosed(rule)
      modifies this`rule
      ensures !ReaderIsClosed(rule)
      ensures turn <= |script| && forall i | 0 <= i < turn :: TurnOutcome(script[i]).StillWaiting?
      ensures outcome.Message? ==> turn < |script| && script[turn].got.GotMessage?
      ensures outcome.TimedOutWaiting? ==> turn < |script| && script[turn].got.GotTimeout?
      ensures outcome.Undecodable? ==> turn < |script| && script[turn].got.GotGarbage?
      ensures outcome.CannotRejoin? ==> turn < |script| && script[turn].joined.JoinFailed?
      ensures forall i | 0 <= i < turn && (script[i].atRead.Server? || script[i].atRead.hub) ::
        script[i].got.GotForeign? || script[i].got.GotDisconnect?
      ensures if turn < |script| then !outcome.StillWaiting? && outcome == TurnOutcome(script[turn]) else outcome.StillWaiting?
    {
      for i := 0 to |script|
        invariant !ReaderIsClosed(rule)
        invariant forall j | 0 <= j < i :: TurnOutcome(script[j]).StillWaiting?
      {
        var w := script[i];
        assert w in script;
        turn := i;
        rule := w.atRead;
        var disconnected := false;
        match rule {
          case Client(_, hub, readerClosed) =>
            if !readerClosed && !hub {
              disconnected := true;
            } else {
              assert hub;
            }
          case Server(receiver) =>
            assert receiver;
        }
        if !disconnected {
          match w.got {
            case GotMessage => return Message, i;
            case GotTimeout => return TimedOutWaiting, i;
            case GotGarbage => return Undecodable, i;
            case GotForeign =>
            case GotDisconnect => disconnected := true;
          }
        }
        if disconnected {
          var epoch := rule.epoch;
          rule := w.atWrite;
          var failed := RejoinSection(epoch, w.joined);
          if failed {
            return CannotRejoin, i;
          }
        }
      }
      return StillWaiting, |script|;
    }
  }
}
