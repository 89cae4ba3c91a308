/** The watch connection as its user sees it: waiting for the acknowledgement, up, down or
  closed, told from the inputs alone; and that the client is exactly that. */
module WatchLink {
  import opened Options
  import opened Watch

  datatype Phase = Waiting | Up | Down | Closed

  /** `socket` numbers the connection, `losses` counts those lost since the last
    acknowledgement. */
  datatype Link = Link(phase: Phase, socket: nat, losses: nat)

  const First := Link(Waiting, 0, 0)

  /** The frames a callback is called for once the connection is up. */
  predicate Carried(f: Frame) { f.EventFrame? || f.Lagged? }

  function Lost(l: Link, closes: bool): Link
  {
    if closes then l.(phase := Closed) else l.(phase := Down, losses := l.losses + 1)
  }

  function Next(l: Link, i: Input): Link
  {
    match l.phase
    case Closed => l
    case Down =>
      if i.UserCloses? then l.(phase := Closed)
      else if i.TimerFires? then l.(phase := Waiting, socket := l.socket + 1)
      else l
    case Waiting =>
      if i.UserCloses? then l.(phase := Closed)
      else if i.SocketClosed? then Lost(l, i.closes)
      else if i.Message? && i.frame.Ack? then Link(if i.closes then Closed else Up, l.socket, 0)
      else l
    case Up =>
      if i.UserCloses? then l.(phase := Closed)
      else if i.SocketClosed? then Lost(l, i.closes)
      else if i.Message? && Carried(i.frame) && i.closes then l.(phase := Closed)
      else l
  }

  function LinkAfter(inputs: seq<Input>): Link
  {
    if inputs == [] then First else Next(LinkAfter(inputs[..|inputs| - 1]), inputs[|inputs| - 1])
  }

  /** Every event and lagged frame that arrives while the connection is up, in order. */
  function Arrivals(inputs: seq<Input>): seq<Delivery>
  {
    if inputs == [] then []
    else
      var front, i := inputs[..|inputs| - 1], inputs[|inputs| - 1];
      Arrivals(front) +
      if LinkAfter(front).phase == Up && i.Message? && Carried(i.frame)
      then [Delivery(LinkAfter(front).socket, i.frame)] else []
  }

  // ---- the client is the link ---------------------------------------------------------------

  ghost predicate Is(b: Backoff, c: Client, l: Link)
  {
    && c.sockets == l.socket + 1 && (l.phase != Closed ==> c.attempt == l.losses)
    && match l.phase
       case Waiting => !c.closedByUser && c.socket == Some(l.socket) && c.awaitingAck && c.timer.None?
       case Up => !c.closedByUser && c.socket == Some(l.socket) && !c.awaitingAck && c.timer.None?
       case Down => !c.closedByUser && c.socket.None? && l.losses > 0 && c.timer == Some(Delay(b, l.losses - 1))
       case Closed => c.closedByUser && c.socket.None? && c.timer.None?
  }

  lemma StepIs(b: Backoff, c: Client, l: Link, i: Input)
    requires Is(b, c, l)
    ensures Is(b, Step(b, c, i), Next(l, i))
    ensures Step(b, c, i).delivered ==
      c.delivered + if l.phase == Up && i.Message? && Carried(i.frame) then [Delivery(l.socket, i.frame)] else []
  {
  }

  /** After any inputs: the socket, the timer and its delay, and what was delivered. */
  lemma {:induction false} ClientIsLink(b: Backoff, inputs: seq<Input>)
    ensures Is(b, Run(b, Created, inputs), LinkAfter(inputs))
    ensures Run(b, Created, inputs).delivered == Arrivals(inputs)
  {
    if inputs != [] {
      var front := inputs[..|inputs| - 1];
      ClientIsLink(b, front);
      StepIs(b, Run(b, Created, front), LinkAfter(front), inputs[|inputs| - 1]);
    }
  }

  // ---- when the connection is up ---------------------------------------------------------------

  /** Ends a connection that is up. */
  predicate Ends(i: Input) { i.UserCloses? || i.SocketClosed? || (i.Message? && Carried(i.frame) && i.closes) }

  /** The `j`-th input acknowledges the connection, and nothing since has ended it. */
  ghost predicate UpSince(inputs: seq<Input>, j: int)
  {
    && 0 <= j < |inputs| && inputs[j] == Message(Ack, false) && LinkAfter(inputs[..j]).phase == Waiting
    && forall k :: j < k < |inputs| ==> !Ends(inputs[k])
  }

  /** Up exactly from an acknowledgement to the first thing that ends the connection. */
  lemma {:induction false} UpIff(inputs: seq<Input>)
    ensures LinkAfter(inputs).phase == Up <==> exists j :: UpSince(inputs, j)
  {
    if inputs != [] {
      var front, last := inputs[..|inputs| - 1], |inputs| - 1;
      UpIff(front);
      assert inputs[..last] == front;
      if LinkAfter(inputs).phase == Up {
        if LinkAfter(front).phase == Up {
          var j :| UpSince(front, j);
          assert front[..j] == inputs[..j];
          assert UpSince(inputs, j);
        } else {
          assert UpSince(inputs, last);
        }
      }
      if j :| UpSince(inputs, j) {
        if j < last {
          assert front[..j] == inputs[..j] && UpSince(front, j);
          assert !Ends(inputs[last]);
        }
      }
    }
  }

  /** Each frame of an acknowledged connection reaches its callback, at once and once. */
  lemma DeliversEveryFrame(b: Backoff, inputs: seq<Input>, j: int, f: Frame, closes: bool)
    requires UpSince(inputs, j) && Carried(f)
    ensures var c, d := Run(b, Created, inputs), Run(b, Created, inputs + [Message(f, closes)]);
      c.socket.Some? && d.delivered == c.delivered + [Delivery(c.socket.value, f)]
  {
    var i := Message(f, closes);
    UpIff(inputs);
    ClientIsLink(b, inputs);
    assert (inputs + [i])[..|inputs|] == inputs;
    StepIs(b, Run(b, Created, inputs), LinkAfter(inputs), i);
  }

  /** A lost connection that nobody closes is sockets again when its timer fires. */
  lemma LostIsReopened(b: Backoff, inputs: seq<Input>)
    requires LinkAfter(inputs).phase == Waiting || LinkAfter(inputs).phase == Up
    ensures var c, d := Run(b, Created, inputs), Run(b, Created, inputs + [SocketClosed(false)] + [TimerFires]);
      d.socket == Some(c.sockets) && d.awaitingAck
  {
    var one := inputs + [SocketClosed(false)];
    assert one[..|inputs|] == inputs && (one + [TimerFires])[..|one|] == one;
    ClientIsLink(b, inputs);
    ClientIsLink(b, one + [TimerFires]);
  }
}
