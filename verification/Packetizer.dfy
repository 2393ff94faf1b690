/**
 The stream packetizer as the object it is: it keeps an unfinished header and body between calls, and hands complete
 messages to the queues in turn. Its work on a chunk is proved equal to Framing's reading of the bytes.
 */
module Packetizer {
  import opened Framing
  import opened MsgQueue

  /** What goes on a queue: command and status, then the body. */
  function Package(m: Message): seq<Byte> {
    [m.cmd, m.status] + m.body
  }

  datatype Delivery = Delivery(queue: nat, package: seq<Byte>)

  /** Messages handed out in turn: the i-th goes to the i-th queue after `robin`. */
  function Deliveries(robin: nat, n: nat, ms: seq<Message>): (ds: seq<Delivery>)
    requires n > 0
    ensures |ds| == |ms|
    ensures forall i :: 0 <= i < |ms| ==> ds[i] == Delivery(RobinAt(robin, i, n), Package(ms[i]))
  {
    seq(|ms|, i requires 0 <= i < |ms| => Delivery(RobinAt(robin, i, n), Package(ms[i])))
  }

  lemma ModIs(x: int, q: int, n: int, r: int)
    requires n > 0 && x == q * n + r && 0 <= r < n
    ensures x % n == r
  {
    var d := x / n - q;
    assert d * n == r - x % n by {
      assert x == (x / n) * n + x % n;
    }
    assert d >= 1 ==> (d - 1) * n >= 0;
    assert d <= -1 ==> (-1 - d) * n >= 0;
  }

  datatype Verdict = Continue | Break | Spin

  /** How the reader of a chunk ended. */
  function VerdictOf(e: End): Verdict {
    match e
    case Waiting(_) => Continue
    case Broken => Break
    case Stuck => Spin
  }

  lemma TakenAndLeft(pending: seq<Byte>, bytes: seq<Byte>, n: nat)
    requires n <= |bytes|
    ensures pending + bytes[..n] + bytes[n..] == pending + bytes
  {
  }

  lemma LeftTwice(bytes: seq<Byte>, n: nat, m: nat)
    requires n + m <= |bytes|
    ensures bytes[n..][m..] == bytes[n + m..]
  {
  }

  /** Of these bytes the messages are taken, and the others are left. */
  ghost predicate TakesMessages(all: seq<Byte>, left: seq<Byte>, ms: seq<Message>) {
    Parse(all) == After(ms, Parse(left))
  }

  lemma TakesNone(all: seq<Byte>)
    ensures TakesMessages(all, all, [])
  {
    assert [] + Parse(all).messages == Parse(all).messages;
  }

  lemma TakesMore(all: seq<Byte>, mid: seq<Byte>, left: seq<Byte>, ms: seq<Message>, ms': seq<Message>)
    requires TakesMessages(all, mid, ms) && TakesMessages(mid, left, ms')
    ensures TakesMessages(all, left, ms + ms')
  {
    AfterAfter(ms, ms', Parse(left));
  }

  lemma TakesFirst(one: seq<Byte>, left: seq<Byte>, m: Message)
    requires |one| > HEADER && |one| == HEADER + BodyLength(one) && m == Message(one[8], one[9], one[HEADER..])
    ensures TakesMessages(one + left, left, [m])
  {
    var all := one + left;
    assert all[..8] == one[..8] && all[HEADER..|one|] == one[HEADER..] && all[|one|..] == left;
  }

  lemma BrokenHeader(header: seq<Byte>, left: seq<Byte>)
    requires |header| == HEADER && BodyLength(header) < 0
    ensures Parse(header + left) == Parsed([], Broken)
  {
    assert (header + left)[..8] == header[..8];
  }

  class StreamMsgPacketizer {
    var headerRecv: nat
    var bodyRecv: nat
    const header: array<Byte>
    var body: array?<Byte>
    const queues: QueueArr
    ghost var delivered: seq<Delivery>

    ghost predicate Valid()
      reads this, header, body, queues
    {
      && header.Length == HEADER && headerRecv <= HEADER
      && queues.Valid()
      && body != header
      && (body == null ==> bodyRecv == 0)
      && (body != null ==>
            && headerRecv == HEADER
            && body.Length == 2 + BodyLength(header[..])
            && bodyRecv <= body.Length - 2
            && body[0] == header[8] && body[1] == header[9])
    }

    /** The bytes of the unfinished message. */
    ghost function Pending(): seq<Byte>
      requires Valid()
      reads this, header, body, queues
    {
      header[..headerRecv] + if body == null then [] else body[2..2 + bodyRecv]
    }

    /** The messages were handed out in turn. */
    ghost predicate Delivers(before: seq<Delivery>, robin: nat, ms: seq<Message>, after: seq<Delivery>, robin': nat)
      requires queues.count > 0
    {
      after == before + Deliveries(robin, queues.count, ms) && robin' == RobinAt(robin, |ms|, queues.count)
    }

    lemma NoDelivery(ds: seq<Delivery>, robin: nat)
      requires robin < queues.count
      ensures Delivers(ds, robin, [], ds, robin)
    {
      ModIs(robin, 0, queues.count, robin);
    }

    lemma OneDelivery(ds: seq<Delivery>, robin: nat, m: Message)
      requires robin < queues.count
      ensures Delivers(ds, robin, [m], ds + [Delivery(robin, Package(m))], RobinAt(robin, 1, queues.count))
    {
      ModIs(robin, 0, queues.count, robin);
    }

    lemma DeliversMore(before: seq<Delivery>, robin: nat, ms: seq<Message>, ds: seq<Delivery>, robin': nat,
                       ms': seq<Message>)
      requires queues.count > 0 && Delivers(before, robin, ms, ds, robin')
      ensures forall ds', robin'' :: Delivers(ds, robin', ms', ds', robin'') ==>
                Delivers(before, robin, ms + ms', ds', robin'')
    {
      Joined(robin, queues.count, ms, ms');
    }

    /** Between two calls: the header is unfinished, or the body, or the body is empty. */
    ghost predicate Ready()
      reads this, header, body, queues
    {
      && Valid()
      && (body == null <==> headerRecv < HEADER)
      && (body != null ==> bodyRecv < body.Length - 2 || body.Length == 2)
    }

    constructor (queues: QueueArr)
      requires queues.Valid()
      ensures Ready() && Pending() == [] && this.queues == queues && delivered == []
      ensures fresh(header) && body == null
    {
      this.queues := queues;
      headerRecv, bodyRecv, body, delivered := 0, 0, null, [];
      header := new Byte[HEADER](_ => 0);
    }

    /** A ready packetizer waits for more. */
    lemma ReadyWaits()
      requires Ready()
      ensures Parse(Pending()) == Parsed([], Waiting(Pending()))
    {
      if body != null {
        assert Pending()[..8] == header[..][..8];
      }
    }

    /** Copies `bytes` into `dst` from `at` on. */
    static method CopyInto(dst: array<Byte>, at: nat, bytes: seq<Byte>)
      requires at + |bytes| <= dst.Length
      modifies dst
      ensures dst[..] == old(dst[..at]) + bytes + old(dst[at + |bytes|..])
    {
      forall i | 0 <= i < |bytes| {
        dst[at + i] := bytes[i];
      }
      assert forall i :: 0 <= i < dst.Length ==>
                           dst[i] == if i < at then old(dst[i]) else if i < at + |bytes| then bytes[i - at]
                             else old(dst[i]);
    }

    /** Fills the header as far as the bytes go, and returns how many it took. */
    method TakeHeader(bytes: seq<Byte>) returns (taken: nat)
      requires Valid() && body == null && headerRecv < HEADER
      modifies this`headerRecv, header
      ensures Valid() && taken == (if |bytes| < HEADER - old(headerRecv) then |bytes| else HEADER - old(headerRecv))
      ensures headerRecv == old(headerRecv) + taken && Pending() == old(Pending()) + bytes[..taken]
    {
      taken := if |bytes| < HEADER - headerRecv then |bytes| else HEADER - headerRecv;
      CopyInto(header, headerRecv, bytes[..taken]);
      headerRecv := headerRecv + taken;
      assert header[..headerRecv] == old(header[..headerRecv]) + bytes[..taken];
    }

    /** Makes room for the body, command and status in front. */
    method StartBody()
      requires Valid() && body == null && headerRecv == HEADER && BodyLength(header[..]) >= 0
      modifies this`body
      ensures Valid() && body != null && fresh(body) && Pending() == old(Pending())
    {
      var n := Buff2Int64(header[..8]);
      assert header[..][..8] == header[..8];
      var fresh' := new Byte[n + 2](_ => 0);
      fresh'[0], fresh'[1] := header[8], header[9];
      body := fresh';
    }

    /** A copy into the rest of the array, seen from position 2. */
    static lemma CopiedBehind(before: seq<Byte>, after: seq<Byte>, at: nat, bytes: seq<Byte>)
      requires 2 <= at && at + |bytes| <= |before| && after == before[..at] + bytes + before[at + |bytes|..]
      ensures |after| == |before| && after[2..at + |bytes|] == before[2..at] + bytes && after[..2] == before[..2]
    {
    }

    /** Copies `bytes` behind what is there from position 2 on. */
    static method CopyBehind(dst: array<Byte>, at: nat, bytes: seq<Byte>)
      requires 2 <= at && at + |bytes| <= dst.Length
      modifies dst
      ensures dst[2..at + |bytes|] == old(dst[2..at]) + bytes
      ensures dst[0] == old(dst[0]) && dst[1] == old(dst[1])
    {
      CopyInto(dst, at, bytes);
      CopiedBehind(old(dst[..]), dst[..], at, bytes);
      assert dst[..][..2] == dst[..2] && old(dst[..])[..2] == old(dst[..2]);
      assert dst[..][2..at + |bytes|] == dst[2..at + |bytes|];
      assert old(dst[..])[2..at] == old(dst[2..at]);
      assert dst[..2][0] == dst[0] && dst[..2][1] == dst[1];
    }

    method TakeBody(bytes: seq<Byte>) returns (taken: nat)
      requires Valid() && body != null
      modifies this`bodyRecv, body
      ensures Valid() && body == old(body)
      ensures taken == (if |bytes| < body.Length - 2 - old(bodyRecv) then |bytes| else body.Length - 2 - old(bodyRecv))
      ensures bodyRecv == old(bodyRecv) + taken && Pending() == old(Pending()) + bytes[..taken]
    {
      var left := body.Length - 2 - bodyRecv;
      taken := if |bytes| < left then |bytes| else left;
      CopyBehind(body, 2 + bodyRecv, bytes[..taken]);
      bodyRecv := bodyRecv + taken;
    }

    /** Hands the complete message out and forgets it. */
    method PushMessage(ghost m: Message)
      requires Valid() && body != null && bodyRecv == body.Length - 2
      requires m == Message(header[8], header[9], body[2..])
      modifies this, header, queues
      ensures Ready() && Pending() == [] && body == null
      ensures delivered == old(delivered) + [Delivery(old(queues.robin), Package(m))]
      ensures queues.robin == RobinAt(old(queues.robin), 1, queues.count)
    {
      assert body[..] == Package(m);
      var q := queues.GetByRobin();
      delivered := delivered + [Delivery(q, body[..])];
      body, bodyRecv, headerRecv := null, 0, 0;
      forall i | 0 <= i < header.Length {
        header[i] := 0;
      }
    }

    /** The header's part of one round: what it lacks is taken, and when it is complete, room is made for the body. */
    method HeaderRound(bytes: seq<Byte>) returns (ok: bool, taken: nat)
      requires Ready() && bytes != []
      modifies this`headerRecv, this`body, header
      ensures taken <= |bytes| && bytes == bytes[..taken] + bytes[taken..]
      ensures !ok ==> |old(Pending()) + bytes[..taken]| == HEADER && BodyLength(old(Pending()) + bytes[..taken]) < 0
      ensures ok ==> Valid() && Pending() == old(Pending()) + bytes[..taken]
      ensures ok && body == null ==> headerRecv < HEADER && taken == |bytes|
      ensures ok && body != null ==> bodyRecv < body.Length - 2 || body.Length == 2
      ensures ok && body != null && taken == 0 ==> body == old(body)
      ensures body != null ==> body == old(body) || fresh(body)
    {
      ok, taken := true, 0;
      if headerRecv < HEADER {
        taken := TakeHeader(bytes);
        if headerRecv < HEADER {
          return;
        }
        assert Pending() == header[..];
        assert header[..][..8] == header[..8];
        if Buff2Int64(header[..8]) < 0 {
          return false, taken;
        }
        StartBody();
      }
    }

    /** Another part of the body, not all of it. */
    method PartOfBody(bytes: seq<Byte>)
      requires Valid() && body != null && |bytes| < body.Length - 2 - bodyRecv
      modifies this`bodyRecv, body
      ensures Ready() && body == old(body) && Pending() == old(Pending()) + bytes
    {
      var taken := TakeBody(bytes);
      assert bytes[..taken] == bytes;
    }

    /** The rest of the body: the message is complete. */
    method RestOfBody(bytes: seq<Byte>) returns (ghost m: Message)
      requires Valid() && body != null && bodyRecv < body.Length - 2 && |bytes| == body.Length - 2 - bodyRecv
      modifies this, header, body, queues
      ensures Ready() && body == null && Pending() == []
      ensures var all := old(Pending()) + bytes;
              && |all| > HEADER && |all| == HEADER + BodyLength(all) && m == Message(all[8], all[9], all[HEADER..])
      ensures delivered == old(delivered) + [Delivery(old(queues.robin), Package(m))]
      ensures queues.robin == RobinAt(old(queues.robin), 1, queues.count)
    {
      ghost var all := Pending() + bytes;
      var taken := TakeBody(bytes);
      assert bytes[..taken] == bytes;
      assert all[..8] == header[..][..8];
      m := Message(header[8], header[9], body[2..]);
      PushMessage(m);
    }

    /** The body's part of one round. */
    method BodyRound(bytes: seq<Byte>) returns (spins: bool, taken: nat, ghost ms: seq<Message>)
      requires Valid() && body != null && (bodyRecv < body.Length - 2 || body.Length == 2)
      modifies this, header, body, queues
      ensures taken <= |bytes| && (bytes != [] && !spins ==> taken > 0)
      ensures !spins ==> Ready() && TakesMessages(old(Pending()) + bytes, Pending() + bytes[taken..], ms)
      ensures spins ==> Parse(old(Pending()) + bytes) == Parsed([], Stuck) && ms == []
      ensures body == null || body == old(body)
      ensures queues.Valid() && Delivers(old(delivered), old(queues.robin), ms, delivered, queues.robin)
    {
      ghost var all := Pending() + bytes;
      assert |Pending()| == HEADER + bodyRecv && all[..8] == header[..][..8];
      spins, taken, ms := false, 0, [];
      NoDelivery(delivered, queues.robin);
      if bodyRecv < body.Length - 2 {
        if |bytes| < body.Length - 2 - bodyRecv {
          PartOfBody(bytes);
          taken := |bytes|;
          TakesNone(all);
          assert Pending() + bytes[taken..] == all;
          return;
        }
        taken := body.Length - 2 - bodyRecv;
        ghost var one := Pending() + bytes[..taken];
        ghost var m;
        assert all == one + bytes[taken..];
        m := RestOfBody(bytes[..taken]);
        ms := [m];
        TakesFirst(one, bytes[taken..], m);
        assert [] + bytes[taken..] == bytes[taken..];
        OneDelivery(old(delivered), old(queues.robin), m);
        return;
      }
      spins := bytes != [];
      TakesNone(all);
      assert Pending() + bytes[0..] == all;
    }

    /**
     One round of the loop, from a ready state. It takes bytes and delivers at most one message, or it breaks, or it
     can take nothing.
     */
    method Round(bytes: seq<Byte>) returns (verdict: Verdict, taken: nat, ghost ms: seq<Message>)
      requires Ready() && bytes != []
      modifies this, header, body, queues
      ensures verdict.Continue? ==>
                Ready() && 0 < taken <= |bytes| && TakesMessages(old(Pending()) + bytes, Pending() + bytes[taken..], ms)
      ensures verdict.Break? ==> Parse(old(Pending()) + bytes) == Parsed([], Broken) && ms == []
      ensures verdict.Spin? ==> Parse(old(Pending()) + bytes) == Parsed([], Stuck) && ms == []
      ensures body != null ==> body == old(body) || fresh(body)
      ensures queues.Valid() && Delivers(old(delivered), old(queues.robin), ms, delivered, queues.robin)
    {
      ghost var all := Pending() + bytes;
      NoDelivery(delivered, queues.robin);
      var ok, n := HeaderRound(bytes);
      if !ok {
        BrokenHeader(old(Pending()) + bytes[..n], bytes[n..]);
        TakenAndLeft(old(Pending()), bytes, n);
        return Break, n, [];
      }
      TakenAndLeft(old(Pending()), bytes, n);
      verdict, taken, ms := TakeRest(bytes, n, all);
    }

    /** What the header leaves of a round's bytes: all but the first `n`. */
    method TakeRest(bytes: seq<Byte>, n: nat, ghost all: seq<Byte>)
      returns (verdict: Verdict, taken: nat, ghost ms: seq<Message>)
      requires Valid() && n <= |bytes| && Pending() + bytes[n..] == all
      requires body == null ==> n == |bytes| && headerRecv < HEADER
      requires body != null ==> bodyRecv < body.Length - 2 || body.Length == 2
      modifies this, header, body, queues
      ensures n <= taken <= |bytes| && !verdict.Break? && (n < |bytes| && verdict.Continue? ==> taken > n)
      ensures verdict.Continue? ==> Ready() && TakesMessages(all, Pending() + bytes[taken..], ms)
      ensures verdict.Spin? ==> Parse(all) == Parsed([], Stuck) && ms == []
      ensures body == null || body == old(body)
      ensures queues.Valid() && Delivers(old(delivered), old(queues.robin), ms, delivered, queues.robin)
    {
      if body == null {
        NoDelivery(delivered, queues.robin);
        TakesNone(all);
        return Continue, n, [];
      }
      var spins, m;
      spins, m, ms := BodyRound(bytes[n..]);
      LeftTwice(bytes, n, m);
      taken := n + m;
      verdict := if spins then Spin else Continue;
    }

    /** Rounds until the chunk is used up, or one does not go on. */
    method Rounds(chunk: seq<Byte>) returns (verdict: Verdict, ghost done: seq<Message>)
      requires Ready()
      modifies this, header, body, queues
      ensures body != null ==> body == old(body) || fresh(body)
      ensures verdict.Continue? ==> Ready() && Parse(old(Pending()) + chunk) == After(done, Parse(Pending()))
      ensures verdict.Break? ==> Parse(old(Pending()) + chunk) == Parsed(done, Broken)
      ensures verdict.Spin? ==> Parse(old(Pending()) + chunk) == Parsed(done, Stuck)
      ensures queues.count > 0 && Delivers(old(delivered), old(queues.robin), done, delivered, queues.robin)
    {
      ghost var all := Pending() + chunk;
      verdict, done := Continue, [];
      NoDelivery(delivered, queues.robin);
      TakesNone(all);
      var left := chunk;
      while left != []
        invariant Ready() && (body != null ==> body == old(body) || fresh(body))
        invariant verdict.Continue? && TakesMessages(all, Pending() + left, done)
        invariant Delivers(old(delivered), old(queues.robin), done, delivered, queues.robin)
        decreases |left|
      {
        ghost var before, robin, ms := done, queues.robin, [];
        ghost var sofar, bytes := delivered, Pending() + left;
        var taken;
        verdict, taken, ms := Round(left);
        DeliversMore(old(delivered), old(queues.robin), before, sofar, robin, ms);
        done := before + ms;
        if !verdict.Continue? {
          assert before + [] == before;
          return;
        }
        left := left[taken..];
        TakesMore(all, bytes, Pending() + left, before, ms);
      }
      assert Pending() + [] == Pending();
    }

    /**
     The inner loop of work on what one recv returned. With `byteOffset` it reads exactly the messages of the
     unfinished bytes and the new ones, and delivers them in turn. As written, it breaks if it finds an unfinished
     header. `Spin` stands for a loop that goes round without taking a byte.
     */
    method Work(byteOffset: bool, chunk: seq<Byte>) returns (verdict: Verdict)
      requires Ready() && chunk != []
      modifies this, header, body, queues
      ensures body != null ==> body == old(body) || fresh(body)
      ensures var p := Feed(byteOffset, Parsed([], Waiting(old(Pending()))), chunk);
              && verdict == VerdictOf(p.end)
              && delivered == old(delivered) + Deliveries(old(queues.robin), queues.count, p.messages)
              && (verdict.Continue? ==> Ready() && Pending() == p.end.rest)
              && queues.robin == RobinAt(old(queues.robin), |p.messages|, queues.count)
    {
      ModIs(queues.robin, 0, queues.count, queues.robin);
      if !byteOffset && 0 < headerRecv < HEADER {
        assert |Pending()| == headerRecv;
        return Break;
      }
      assert |Pending()| >= headerRecv;
      ghost var p := Parse(Pending() + chunk);
      ghost var done;
      assert [] + p.messages == p.messages;
      verdict, done := Rounds(chunk);
      if verdict.Continue? {
        ReadyWaits();
        assert done + [] == done;
      }
    }

    /** One more chunk after `done` was delivered. */
    method WorkMore(byteOffset: bool, chunk: seq<Byte>, ghost before: seq<Delivery>, ghost robin: nat,
                    ghost done: seq<Message>)
      returns (verdict: Verdict, ghost q: Parsed)
      requires Ready() && chunk != [] && Delivers(before, robin, done, delivered, queues.robin)
      modifies this, header, body, queues
      ensures body != null ==> body == old(body) || fresh(body)
      ensures q == Feed(byteOffset, Parsed(done, Waiting(old(Pending()))), chunk) && verdict == VerdictOf(q.end)
      ensures queues.count > 0 && Delivers(before, robin, q.messages, delivered, queues.robin)
      ensures verdict.Continue? ==> Ready() && q == Parsed(q.messages, Waiting(Pending()))
    {
      ghost var e := Waiting(Pending());
      ghost var p := Feed(byteOffset, Parsed([], e), chunk);
      DeliversMore(before, robin, done, delivered, queues.robin, p.messages);
      FeedAfter(byteOffset, done, e, chunk);
      q := Feed(byteOffset, Parsed(done, e), chunk);
      verdict := Work(byteOffset, chunk);
    }

    /** The outer loop of work, and all its calls on one stream: chunk after chunk, until one does not go on. */
    method WorkAll(byteOffset: bool, chunks: seq<seq<Byte>>) returns (verdict: Verdict)
      requires Ready() && NonEmpty(chunks)
      modifies this, header, body, queues
      ensures var p := FeedAll(byteOffset, Parsed([], Waiting(old(Pending()))), chunks);
              && verdict == VerdictOf(p.end)
              && (verdict.Continue? ==> Ready() && Pending() == p.end.rest)
              && queues.count > 0 && Delivers(old(delivered), old(queues.robin), p.messages, delivered, queues.robin)
    {
      ghost var q := Parsed([], Waiting(Pending()));
      ghost var all := FeedAll(byteOffset, q, chunks);
      NoDelivery(delivered, queues.robin);
      verdict := Continue;
      for k := 0 to |chunks|
        invariant Ready() && verdict.Continue? && (body != null ==> body == old(body) || fresh(body))
        invariant all == FeedAll(byteOffset, q, chunks[k..]) && q == Parsed(q.messages, Waiting(Pending()))
        invariant Delivers(old(delivered), old(queues.robin), q.messages, delivered, queues.robin)
      {
        assert chunks[k..][0] == chunks[k] && chunks[k..][1..] == chunks[k + 1..];
        verdict, q := WorkMore(byteOffset, chunks[k], old(delivered), old(queues.robin), q.messages);
        if !verdict.Continue? {
          BrokenStays(byteOffset, q, chunks[k + 1..]);
          return;
        }
      }
    }
  }

  lemma FeedAfter(byteOffset: bool, ms: seq<Message>, e: End, chunk: seq<Byte>)
    requires e.Waiting?
    ensures Feed(byteOffset, Parsed(ms, e), chunk) == After(ms, Feed(byteOffset, Parsed([], e), chunk))
  {
    var p := Parse(e.rest + chunk);
    AfterAfter(ms, [], p);
    assert ms + [] == ms;
  }

  lemma Joined(robin: nat, n: nat, ms: seq<Message>, ms': seq<Message>)
    requires n > 0
    ensures Deliveries(robin, n, ms + ms') == Deliveries(robin, n, ms) + Deliveries(RobinAt(robin, |ms|, n), n, ms')
    ensures RobinAt(RobinAt(robin, |ms|, n), |ms'|, n) == RobinAt(robin, |ms + ms'|, n)
  {
    forall i: nat
      ensures RobinAt(RobinAt(robin, |ms|, n), i, n) == RobinAt(robin, |ms| + i, n)
    {
      RobinSum(robin, |ms|, i, n);
    }
  }

  lemma RobinSum(robin: nat, i: nat, j: nat, n: nat)
    requires n > 0
    ensures RobinAt(RobinAt(robin, i, n), j, n) == RobinAt(robin, i + j, n)
  {
    var q, a := (robin + i) / n, (robin + i) % n;
    var q', a' := (a + j) / n, (a + j) % n;
    assert (q + q') * n == q * n + q' * n;
    ModIs(robin + i + j, q + q', n, a');
  }
}
