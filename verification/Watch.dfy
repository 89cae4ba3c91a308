/** The watch connection: one socket, reconnected with exponential backoff until closed. */
module Watch {
  import opened Options

  datatype Frame = Ack | EventFrame(id: nat) | Lagged(n: nat) | Ignored

  datatype Delivery = Delivery(socket: nat, frame: Frame)

  /** The client's fields, and a record of what it did: `sockets` counts sockets, `acked`
    are those acknowledged, `delays` the backoffs since the last acknowledgement. */
  datatype Client = Client(
    socket: Option<nat>,
    attempt: nat,
    closedByUser: bool,
    awaitingAck: bool,
    timer: Option<int>,
    sockets: nat,
    acked: set<nat>,
    delays: seq<int>,
    delivered: seq<Delivery>)

  datatype Backoff = Backoff(initialMs: int, maxMs: int)

  /** What the outside does. A callback may call `close()` before it returns; `closes` says so. */
  datatype Input =
    | Message(frame: Frame, closes: bool)
    | SocketClosed(closes: bool)
    | TimerFires
    | UserCloses

  function Pow2(k: nat): nat { if k == 0 then 1 else 2 * Pow2(k - 1) }

  function Delay(b: Backoff, k: nat): int
  {
    var d := b.initialMs * Pow2(k);
    if d < b.maxMs then d else b.maxMs
  }

  function Connect(c: Client): Client
  {
    if c.closedByUser then c else c.(awaitingAck := true, socket := Some(c.sockets), sockets := c.sockets + 1)
  }

  function Close(c: Client): Client { c.(closedByUser := true, timer := None, socket := None) }

  function Callback(c: Client, closes: bool): Client { if closes then Close(c) else c }

  function HandleMessage(c: Client, frame: Frame, closes: bool): Client
    requires c.socket.Some?
  {
    if c.awaitingAck then
      if frame.Ack?
      then Callback(c.(awaitingAck := false, attempt := 0, acked := c.acked + {c.socket.value}, delays := []), closes)
      else c
    else if frame.EventFrame? || frame.Lagged?
    then Callback(c.(delivered := c.delivered + [Delivery(c.socket.value, frame)]), closes)
    else c
  }

  function ScheduleReconnect(b: Backoff, c: Client): Client
  {
    if c.closedByUser || c.timer.Some? then c
    else
      var d := Delay(b, c.attempt);
      c.(timer := Some(d), attempt := c.attempt + 1, delays := c.delays + [d])
  }

  function HandleClose(b: Backoff, c: Client, closes: bool): Client
  {
    var detached := c.(socket := None);
    ScheduleReconnect(b, if detached.closedByUser then detached else Callback(detached, closes))
  }

  /** Only the socket the client listens to can reach it. */
  function Step(b: Backoff, c: Client, i: Input): Client
  {
    match i
    case Message(frame, closes) => if c.socket.Some? then HandleMessage(c, frame, closes) else c
    case SocketClosed(closes) => if c.socket.Some? then HandleClose(b, c, closes) else c
    case TimerFires => if c.timer.Some? then Connect(c.(timer := None)) else c
    case UserCloses => Close(c)
  }

  const Created := Connect(Client(None, 0, false, true, None, 0, {}, [], []))

  function Run(b: Backoff, c: Client, inputs: seq<Input>): Client
  {
    if inputs == [] then c else Step(b, Run(b, c, inputs[..|inputs| - 1]), inputs[|inputs| - 1])
  }

  // ---- what every step keeps -------------------------------------------------------------------

  ghost predicate Inv(b: Backoff, c: Client)
  {
    && (if c.closedByUser then c.socket.None? && c.timer.None? else c.socket.Some? <==> c.timer.None?)
    && (c.socket.Some? ==> c.socket.value < c.sockets)
    && (c.socket.Some? && !c.awaitingAck ==> c.socket.value in c.acked)
    && (forall d <- c.delivered :: d.socket in c.acked && (d.frame.EventFrame? || d.frame.Lagged?))
    && c.attempt == |c.delays|
    && (forall k :: 0 <= k < |c.delays| ==> c.delays[k] == Delay(b, k))
    && (c.timer.Some? ==> c.delays != [] && c.timer.value == c.delays[|c.delays| - 1])
  }

  lemma {:induction false} RunKeeps(b: Backoff, inputs: seq<Input>)
    ensures Inv(b, Run(b, Created, inputs))
  {
    if inputs != [] {
      RunKeeps(b, inputs[..|inputs| - 1]);
    }
  }

  /** Until closed: a socket or a timer, never both, never neither. Once closed: neither. */
  lemma SocketOrTimer(b: Backoff, inputs: seq<Input>)
    ensures var c := Run(b, Created, inputs);
      if c.closedByUser then c.socket.None? && c.timer.None?
      else (c.socket.Some? && c.timer.None?) || (c.socket.None? && c.timer.Some?)
  {
    RunKeeps(b, inputs);
  }

  /** A step that delivers a frame is one on an open client whose current connection has
    been acknowledged already, and it delivers one frame of that connection. */
  lemma DeliversOnlyAfterAck(b: Backoff, inputs: seq<Input>, i: Input)
    ensures var c := Run(b, Created, inputs);
      var d := Step(b, c, i);
      d.delivered != c.delivered ==>
        && !c.closedByUser && c.socket.Some? && c.socket.value in c.acked
        && i.Message? && d.delivered == c.delivered + [Delivery(c.socket.value, i.frame)]
  {
    RunKeeps(b, inputs);
  }

  lemma ClosedStep(b: Backoff, c: Client, i: Input)
    requires c.closedByUser && c.socket.None? && c.timer.None?
    ensures Step(b, c, i) == c
  {
  }

  /** After `close()` nothing happens any more: no delivery, no socket, no timer. */
  lemma {:induction false} ClosedIsFinal(b: Backoff, inputs: seq<Input>, later: seq<Input>)
    requires Run(b, Created, inputs).closedByUser
    ensures Run(b, Created, inputs + later) == Run(b, Created, inputs)
    decreases |later|
  {
    RunKeeps(b, inputs);
    if later == [] {
      assert inputs + later == inputs;
    } else {
      ClosedIsFinal(b, inputs, later[..|later| - 1]);
      var all := inputs + later;
      assert all[..|all| - 1] == inputs + later[..|later| - 1];
      ClosedStep(b, Run(b, Created, inputs), later[|later| - 1]);
    }
  }

  lemma {:induction false} Pow2Grows(j: nat, k: nat)
    requires j <= k
    ensures 1 <= Pow2(j) <= Pow2(k)
    decreases k
  {
    if j < k { Pow2Grows(j, k - 1); }
    if k > 0 && j == k { Pow2Grows(k - 1, k - 1); }
  }

  lemma TimesGrows(a: int, x: int, y: int)
    requires a >= 0 && x <= y
    ensures a * x <= a * y
  {
    assert a * y - a * x == a * (y - x);
  }

  lemma DelayGrows(b: Backoff, j: nat, k: nat)
    requires b.initialMs >= 0 && j <= k
    ensures Delay(b, j) <= Delay(b, k) <= b.maxMs
  {
    var x, y := Pow2(j), Pow2(k);
    assert x <= y by { Pow2Grows(j, k); }
    TimesGrows(b.initialMs, x, y);
  }

  /** The delays since the last acknowledgement are min(max, initial * 2^k) in turn, so
    they never shrink and never pass the maximum; the next one continues the series. */
  lemma BackoffIsExact(b: Backoff, inputs: seq<Input>)
    ensures var c := Run(b, Created, inputs);
      && c.attempt == |c.delays|
      && (forall k :: 0 <= k < |c.delays| ==> c.delays[k] == Delay(b, k) <= b.maxMs)
      && (b.initialMs >= 0 ==> forall j, k :: 0 <= j <= k < |c.delays| ==> c.delays[j] <= c.delays[k])
  {
    RunKeeps(b, inputs);
    var c := Run(b, Created, inputs);
    forall j, k | b.initialMs >= 0 && 0 <= j <= k < |c.delays| ensures c.delays[j] <= c.delays[k] {
      DelayGrows(b, j, k);
    }
  }

  // ---- the object --------------------------------------------------------------------------------

  class WatchClient {
    const backoff: Backoff
    var socket: Option<nat>
    var attempt: nat
    var closedByUser: bool
    var awaitingAck: bool
    var timer: Option<int>

    ghost predicate Shows(c: Client)
      reads this
    {
      && socket == c.socket && attempt == c.attempt && closedByUser == c.closedByUser
      && awaitingAck == c.awaitingAck && timer == c.timer
    }

    constructor (backoff: Backoff)
      ensures this.backoff == backoff && Shows(Created)
    {
      this.backoff := backoff;
      socket, attempt, closedByUser, awaitingAck, timer := Some(0), 0, false, true, None;
    }

    method Open(number: nat, ghost c: Client)
      requires Shows(c) && number == c.sockets
      modifies this
      ensures Shows(Connect(c))
    {
      if closedByUser { return; }
      awaitingAck := true;
      socket := Some(number);
    }

    method UserClose(ghost c: Client)
      requires Shows(c)
      modifies this
      ensures Shows(Close(c))
    {
      closedByUser := true;
      timer := None;
      socket := None;
    }

    /** `deliver` is what reaches a callback; `closes` is what that callback does. */
    method OnMessage(frame: Frame, closes: bool, ghost c: Client) returns (deliver: bool)
      requires Shows(c) && c.socket.Some?
      modifies this
      ensures Shows(HandleMessage(c, frame, closes))
      ensures deliver <==> |HandleMessage(c, frame, closes).delivered| > |c.delivered|
    {
      deliver := false;
      if awaitingAck {
        if frame.Ack? {
          awaitingAck := false;
          attempt := 0;
          if closes { UserClose(c.(awaitingAck := false, attempt := 0)); }
        }
        return;
      }
      if frame.EventFrame? || frame.Lagged? {
        deliver := true;
        if closes { UserClose(c); }
      }
    }

    method OnClose(closes: bool, ghost c: Client)
      requires Shows(c) && c.socket.Some?
      modifies this
      ensures Shows(HandleClose(backoff, c, closes))
    {
      socket := None;
      if !closedByUser && closes { UserClose(c.(socket := None)); }
      if closedByUser || timer.Some? { return; }
      timer := Some(Delay(backoff, attempt));
      attempt := attempt + 1;
    }

    /** The reconnect timer fires. */
    method OnTimer(number: nat, ghost c: Client)
      requires Shows(c) && c.timer.Some? && number == c.sockets
      modifies this
      ensures Shows(Connect(c.(timer := None)))
    {
      timer := None;
      Open(number, c.(timer := None));
    }

    /** One input; `deliver` says a frame reaches a callback, `opens` that a socket is opened. */
    method OnInput(i: Input, number: nat, ghost c: Client) returns (deliver: bool, opens: bool)
      requires Shows(c) && number == c.sockets && (c.timer.Some? ==> !c.closedByUser)
      modifies this
      ensures Shows(Step(backoff, c, i))
      ensures deliver <==> |Step(backoff, c, i).delivered| > |c.delivered|
      ensures Step(backoff, c, i).sockets == c.sockets + if opens then 1 else 0
    {
      deliver, opens := false, false;
      match i
      case Message(frame, closes) => if socket.Some? { deliver := OnMessage(frame, closes, c); }
      case SocketClosed(closes) => if socket.Some? { OnClose(closes, c); }
      case TimerFires =>
        if timer.Some? {
          OnTimer(number, c);
          opens := true;
        }
      case UserCloses => UserClose(c);
    }
  }

  /** The client object through a whole run: its fields, and what it delivered. */
  method Drive(b: Backoff, inputs: seq<Input>) returns (w: WatchClient, delivered: seq<Delivery>)
    ensures fresh(w) && w.Shows(Run(b, Created, inputs)) && delivered == Run(b, Created, inputs).delivered
  {
    w := new WatchClient(b);
    delivered := [];
    var sockets := 1;
    for k := 0 to |inputs|
      invariant fresh(w) && w.backoff == b && w.Shows(Run(b, Created, inputs[..k]))
      invariant sockets == Run(b, Created, inputs[..k]).sockets && delivered == Run(b, Created, inputs[..k]).delivered
    {
      ghost var c := Run(b, Created, inputs[..k]);
      assert inputs[..k + 1][..k] == inputs[..k];
      RunKeeps(b, inputs[..k]);
      DeliversOnlyAfterAck(b, inputs[..k], inputs[k]);
      var from := w.socket;
      var deliver, opens := w.OnInput(inputs[k], sockets, c);
      if deliver { delivered := delivered + [Delivery(from.value, inputs[k].frame)]; }
      if opens { sockets := sockets + 1; }
    }
    assert inputs[..|inputs|] == inputs;
  }
}
