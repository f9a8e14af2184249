/** The `SharedBuffer` of connectn/exporter.py as a sequential state machine, and the
    `get_choice` / `set_choice` handshake built on it.

    The buffer is a FIFO queue of messages with a `blocked` and an `invalid` flag. The
    condition variable and the thread that waits on it are not modelled: the other side
    of the handshake, which runs while the caller is blocked, is a parameter `respond`
    that maps the buffer as the caller left it to the buffer as the caller finds it when
    it wakes up. */
module SharedBuffers {
  import opened Wrappers
  import opened PyValues

  /** The tuple `(tag, push, value)` that every producer in the program posts. */
  datatype Message = Message(tag: string, push: bool, value: Value)

  datatype Buffer = Buffer(data: seq<Message>, blocked: bool, invalid: bool)

  /** What a call that blocks on the buffer comes to: a returned value, an exception, or still
      blocked (the other side neither unblocked nor invalidated the buffer). */
  datatype Outcome = Returned(value: Value) | Raised(fault: Fault) | Waiting

  /** `_private_init_`: an empty, unblocked, valid buffer. */
  const Fresh: Buffer := Buffer([], false, false)

  /** `isBlocked()`: a thread waiting in `block()` on this buffer would not return yet. */
  function IsBlocked(b: Buffer): (blocked: bool)
    ensures blocked <==> Wake(b) != Returned(NoneV)
    ensures blocked && !b.invalid ==> Wake(Unblock(b)) == Returned(NoneV)
  {
    b.blocked
  }

  /** `isInvalid()`: the buffer can no longer be used; only `reset()` changes it. */
  function IsInvalid(b: Buffer): (invalid: bool)
    ensures invalid <==> Reset(b) != b
    ensures invalid ==> Poll(b).1.None? && Block(b).1.Some?
  {
    b.invalid
  }

  /** `post(value)`: appends to the back of the queue of a valid buffer. */
  function Post(b: Buffer, m: Message): (b': Buffer)
    ensures !b.invalid ==> b'.data == b.data + [m] && b'.blocked == b.blocked && !b'.invalid
    ensures b.invalid ==> b' == b
  {
    if b.invalid then b else b.(data := b.data + [m])
  }

  /** `poll()`: removes and returns the front of the queue of a valid buffer; `None` when the
      buffer is invalid or empty (the `IndexError` of `pop(0)` is swallowed). */
  function Poll(b: Buffer): (res: (Buffer, Option<Message>))
    ensures res.1.Some? <==> !b.invalid && b.data != []
    ensures res.1.Some? ==> res.1.value == b.data[0] && res.0 == b.(data := b.data[1..])
    ensures res.1.None? ==> res.0 == b
  {
    if b.invalid || b.data == [] then (b, None)
    else (b.(data := b.data[1..]), Some(b.data[0]))
  }

  /** The flag part of `block()`: the buffer is marked blocked, and the call raises
      `RuntimeError` at once when the buffer is invalid. */
  function Block(b: Buffer): (res: (Buffer, Option<Fault>))
    ensures res.0 == b.(blocked := true)
    ensures res.1.Some? <==> b.invalid
    ensures res.1.Some? ==> res.1.value == RuntimeError("")
  {
    (b.(blocked := true), if b.invalid then Some(RuntimeError("")) else None)
  }

  /** The rest of `block()`, once the waiting thread wakes up on buffer `b`: it returns when
      the buffer was unblocked, raises `RuntimeError` when it was invalidated, and otherwise
      keeps waiting. */
  function Wake(b: Buffer): (f: Outcome)
    ensures f == Returned(NoneV) <==> !b.blocked
    ensures f.Raised? <==> b.blocked && b.invalid
    ensures f.Waiting? <==> b.blocked && !b.invalid
  {
    if !b.blocked then Returned(NoneV)
    else if b.invalid then Raised(RuntimeError(""))
    else Waiting
  }

  /** `unblock()`: clears `blocked`, unless the buffer is invalid. */
  function Unblock(b: Buffer): (b': Buffer)
    ensures !b.invalid ==> b' == b.(blocked := false)
    ensures b.invalid ==> b' == b
  {
    if b.invalid then b else b.(blocked := false)
  }

  /** `invalidate()`: sets `invalid` and nothing else. */
  function Invalidate(b: Buffer): (b': Buffer)
    ensures b'.invalid && b'.data == b.data && b'.blocked == b.blocked
  {
    b.(invalid := true)
  }

  /** `reset()`: an invalid buffer goes back to its initial state; a valid one is unchanged. */
  function Reset(b: Buffer): (b': Buffer)
    ensures b.invalid ==> b' == Fresh
    ensures !b.invalid ==> b' == b
  {
    if b.invalid then Fresh else b
  }

  /** Once invalid, a buffer stays invalid, with the same queue, under every mutator except
      `reset`. */
  lemma InvalidIsSticky(b: Buffer, m: Message)
    requires b.invalid
    ensures Post(b, m) == b && Poll(b) == (b, None) && Unblock(b) == b
    ensures Block(b).0.invalid && Block(b).0.data == b.data && Block(b).1.Some?
    ensures Invalidate(b).invalid
  {
  }

  /** `reset()` after `invalidate()` always gives back a fresh buffer, whatever it held. */
  lemma ResetAfterInvalidate(b: Buffer)
    ensures Reset(Invalidate(b)) == Fresh
  {
  }

  /** The buffer after posting `ms` one after the other. */
  function PostAll(b: Buffer, ms: seq<Message>): (b': Buffer)
    ensures b'.invalid == b.invalid && b'.blocked == b.blocked
    decreases |ms|
  {
    if ms == [] then b else PostAll(Post(b, ms[0]), ms[1..])
  }

  /** Polling `n` times: the messages obtained, in order, and the buffer left behind. */
  function PollN(b: Buffer, n: nat): (res: (Buffer, seq<Message>))
    ensures res.0.invalid == b.invalid && res.0.blocked == b.blocked
    decreases n
  {
    if n == 0 then (b, [])
    else
      var (b1, m) := Poll(b);
      var (b2, rest) := PollN(b1, n - 1);
      (b2, (if m.Some? then [m.value] else []) + rest)
  }

  /** Posting to a valid buffer appends to its queue. */
  lemma {:induction false} PostAllAppends(b: Buffer, ms: seq<Message>)
    requires !b.invalid
    ensures PostAll(b, ms).data == b.data + ms
    decreases |ms|
  {
    if ms != [] {
      PostAllAppends(Post(b, ms[0]), ms[1..]);
      assert b.data + [ms[0]] + ms[1..] == b.data + ms;
    }
  }

  /** Polling a valid buffer as often as it holds messages yields them in order and empties it. */
  lemma {:induction false} PollNDrains(b: Buffer)
    requires !b.invalid
    ensures PollN(b, |b.data|) == (b.(data := []), b.data)
    decreases |b.data|
  {
    if b.data != [] {
      var rest := b.(data := b.data[1..]);
      PollNDrains(rest);
      assert Poll(b) == (rest, Some(b.data[0]));
      assert [b.data[0]] + b.data[1..] == b.data;
    }
  }

  /** The buffer is a queue: messages posted to a fresh buffer are polled back in the order
      they were posted, leaving it fresh again. */
  lemma {:induction false} FifoRoundTrip(ms: seq<Message>)
    ensures PollN(PostAll(Fresh, ms), |ms|) == (Fresh, ms)
  {
    PostAllAppends(Fresh, ms);
    var full := PostAll(Fresh, ms);
    assert [] + ms == ms;
    assert full == Buffer(ms, false, false);
    PollNDrains(full);
  }

  /** Reading a reply: the unpacking `tag, push, value = buffer.poll()` raises `TypeError` when
      there is nothing to poll. */
  function Receive(b: Buffer): (res: (Buffer, Result<Message>))
    ensures res.0 == Poll(b).0
    ensures res.1.Ok? <==> Poll(b).1.Some?
    ensures res.1.Ok? ==> res.1.value == Poll(b).1.value
    ensures res.1.Fail? ==> res.1.fault == TypeError
  {
    var (b', m) := Poll(b);
    (b', if m.Some? then Ok(m.value) else Fail(TypeError))
  }

  /** `get_choice(ident)`: posts the request `(ident, False, None)`, blocks until the other
      side, `respond`, has answered, and returns the value of the reply when its tag is `ident`
      and `None` otherwise. An empty `ident` fails the assertion. */
  function GetChoice(ident: string, b: Buffer, respond: Buffer -> Buffer): (res: (Buffer, Outcome))
    ensures ident == "" ==> res == (b, Raised(AssertionError))
    ensures ident != "" && b.invalid ==> res.1 == Raised(RuntimeError(""))
  {
    if ident == "" then (b, Raised(AssertionError))
    else
      var (b1, err) := Block(Post(b, Message(ident, false, NoneV)));
      if err.Some? then (b1, Raised(err.value))
      else
        var b2 := respond(b1);
        match Wake(b2)
        case Waiting => (b2, Waiting)
        case Raised(f) => (b2, Raised(f))
        case Returned(_) =>
          var (b3, reply) := Receive(b2);
          match reply
          case Fail(f) => (b3, Raised(f))
          case Ok(m) => (b3, Returned(if m.tag == ident then m.value else NoneV))
  }

  /** `set_choice(ident, value)`: posts `(ident, True, value)`, blocks until `respond` has
      answered, and consumes the reply. */
  function SetChoice(ident: string, value: Value, b: Buffer, respond: Buffer -> Buffer): (res: (Buffer, Outcome))
    ensures ident == "" ==> res == (b, Raised(AssertionError))
    ensures ident != "" && b.invalid ==> res.1 == Raised(RuntimeError(""))
  {
    if ident == "" then (b, Raised(AssertionError))
    else
      var (b1, err) := Block(Post(b, Message(ident, true, value)));
      if err.Some? then (b1, Raised(err.value))
      else
        var b2 := respond(b1);
        match Wake(b2)
        case Waiting => (b2, Waiting)
        case Raised(f) => (b2, Raised(f))
        case Returned(_) =>
          var (b3, reply) := Receive(b2);
          match reply
          case Fail(f) => (b3, Raised(f))
          case Ok(_) => (b3, Returned(NoneV))
  }

  /** The application's side of a request: take the request off the queue, post the reply
      `(tag, True, value)` and unblock the requester, as the game scene does for a drop. */
  function Answer(tag: string, value: Value): Buffer -> Buffer {
    b => Unblock(Post(Poll(b).0, Message(tag, true, value)))
  }

  /** Answering takes the front request off a valid queue, appends the reply and unblocks. */
  lemma AnswerEffect(tag: string, value: Value, b: Buffer)
    requires !b.invalid && b.data != []
    ensures Answer(tag, value)(b) == Buffer(b.data[1..] + [Message(tag, true, value)], false, false)
  {
  }

  /** Answering the request a fresh buffer holds leaves just the reply, unblocked. */
  lemma {:induction false} AnswerRequest(ident: string, tag: string, value: Value)
    ensures Answer(tag, value)(Buffer([Message(ident, false, NoneV)], true, false)) ==
              Buffer([Message(tag, true, value)], false, false)
  {
    AnswerEffect(tag, value, Buffer([Message(ident, false, NoneV)], true, false));
  }

  /** A request on an idle buffer that the other side answers with a single reply returns
      the reply's value when the reply carries the requester's tag and `None` otherwise, and
      leaves the buffer idle again. */
  lemma GetChoiceAnswered(ident: string, tag: string, value: Value, respond: Buffer -> Buffer)
    requires ident != ""
    requires respond(Buffer([Message(ident, false, NoneV)], true, false)) == Buffer([Message(tag, true, value)], false, false)
    ensures GetChoice(ident, Fresh, respond) == (Fresh, Returned(if tag == ident then value else NoneV))
  {
    var b1 := Block(Post(Fresh, Message(ident, false, NoneV))).0;
    assert b1 == Buffer([Message(ident, false, NoneV)], true, false);
    var reply := Message(tag, true, value);
    assert [reply][1..] == [];
    assert Buffer([reply], false, false).(data := []) == Fresh;
  }

  /** A push on an idle buffer that the other side answers with a single message returns
      `None`, consumes the answer, and leaves the buffer idle again. */
  lemma SetChoiceAnswered(ident: string, value: Value, reply: Message, respond: Buffer -> Buffer)
    requires ident != ""
    requires respond(Buffer([Message(ident, true, value)], true, false)) == Buffer([reply], false, false)
    ensures SetChoice(ident, value, Fresh, respond) == (Fresh, Returned(NoneV))
  {
    var b1 := Block(Post(Fresh, Message(ident, true, value))).0;
    assert b1 == Buffer([Message(ident, true, value)], true, false);
    assert [reply][1..] == [];
    assert Buffer([reply], false, false).(data := []) == Fresh;
  }

  /** If the other side invalidates the buffer instead of answering, the requester gets a
      `RuntimeError` rather than a value. */
  lemma GetChoiceInvalidated(ident: string, b: Buffer)
    requires ident != "" && !b.invalid
    ensures GetChoice(ident, b, Invalidate).1 == Raised(RuntimeError(""))
  {
  }
}
