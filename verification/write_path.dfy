/** The write path of src/connection.c: the server core appends to one buffer, TLS writes from another. */
module WritePath {
  import opened Common
  import opened ByteBuffer

  datatype Ret = RetOk | RetEof | RetEagain | RetError

  /** The two write buffers of a connection. */
  datatype State = State(tls: bool, plain: seq<Byte>, ssl: seq<Byte>)

  /** New bytes from the server core, or a call of the writer; of the latter the socket decides how many
      bytes go out and what is returned. */
  datatype Op = Produce(bytes: seq<Byte>) | Write(written: nat, ret: Ret)

  /** The buffers are swapped when TLS has nothing left and there is something new. */
  function Swapped(s: State): State {
    if s.tls && s.plain != [] && s.ssl == [] then s.(plain := s.ssl, ssl := s.plain) else s
  }

  /** The bytes a call of the writer hands to the socket. */
  function Offered(s: State): seq<Byte> {
    if s.tls then Swapped(s).ssl else s.plain
  }

  /** http2d_buffer_move_to_begin. */
  function Drop(b: seq<Byte>, n: nat): seq<Byte> {
    if n >= |b| then [] else b[n..]
  }

  /** What sockets do: a prefix goes out. A TLS write takes all or nothing, and nothing when it has to be
      tried again. */
  predicate Allowed(s: State, op: Op) {
    op.Write? ==>
      && op.written <= |Offered(s)|
      && (s.tls ==> op.written == 0 || op.written == |Offered(s)|)
      && (s.tls && op.ret == RetEagain ==> op.written == 0)
  }

  function Step(s: State, op: Op): State {
    match op
    case Produce(x) => s.(plain := s.plain + x)
    case Write(n, _) =>
      var s1 := Swapped(s);
      if s.tls then s1.(ssl := Drop(s1.ssl, n)) else s1.(plain := Drop(s1.plain, n))
  }

  /** The bytes that leave in one step. */
  function Leaving(s: State, op: Op): seq<Byte>
    requires Allowed(s, op)
  {
    match op
    case Produce(_) => []
    case Write(n, _) => Offered(s)[..n]
  }

  predicate AllowedRun(s: State, ops: seq<Op>)
    decreases |ops|
  {
    ops == [] || (Allowed(s, ops[0]) && AllowedRun(Step(s, ops[0]), ops[1..]))
  }

  function Run(s: State, ops: seq<Op>): State
    decreases |ops|
  {
    if ops == [] then s else Run(Step(s, ops[0]), ops[1..])
  }

  /** All bytes that left during a run. */
  function Sent(s: State, ops: seq<Op>): seq<Byte>
    requires AllowedRun(s, ops)
    decreases |ops|
  {
    if ops == [] then [] else Leaving(s, ops[0]) + Sent(Step(s, ops[0]), ops[1..])
  }

  /** All bytes the server core produced during a run. */
  function Produced(ops: seq<Op>): seq<Byte> {
    if ops == [] then []
    else (if ops[0].Produce? then ops[0].bytes else []) + Produced(ops[1..])
  }

  /** The second buffer is for TLS only. */
  ghost predicate Valid(s: State) {
    !s.tls ==> s.ssl == []
  }

  /** The bytes that wait, in the order in which they will leave. */
  function Waiting(s: State): seq<Byte> { s.ssl + s.plain }

  /** What is offered to the socket comes first of all that waits, and nothing is offered only when nothing
      waits. */
  lemma OffersFirst(s: State)
    requires Valid(s)
    ensures Offered(s) <= Waiting(s)
    ensures Offered(s) == [] <==> Waiting(s) == []
  {
    assert s.tls && s.ssl == [] ==> Waiting(s) == s.plain;
  }

  lemma StepKeeps(s: State, op: Op)
    requires Valid(s) && Allowed(s, op)
    ensures Valid(Step(s, op)) && Step(s, op).tls == s.tls
    ensures Leaving(s, op) + Waiting(Step(s, op)) == Waiting(s) + if op.Produce? then op.bytes else []
  {
    match op
    case Produce(x) =>
      assert s.ssl + (s.plain + x) == (s.ssl + s.plain) + x;
    case Write(n, _) =>
      var s1 := Swapped(s);
      assert Waiting(s1) == Waiting(s);
      assert Offered(s)[..n] + Drop(Offered(s), n) == Offered(s);
      if s.tls {
        assert Offered(s)[..n] + (Drop(s1.ssl, n) + s1.plain) == (Offered(s)[..n] + Drop(s1.ssl, n)) + s1.plain;
      }
  }

  /** Over every run: what was sent, then the TLS buffer, then the other buffer, are the bytes that waited
      at the start followed by all bytes produced, in order. */
  lemma {:induction false} NothingLost(s: State, ops: seq<Op>)
    requires Valid(s) && AllowedRun(s, ops)
    ensures var r := Run(s, ops);
            Valid(r) && Sent(s, ops) + r.ssl + r.plain == Waiting(s) + Produced(ops)
    decreases |ops|
  {
    hide Step, Leaving, Allowed;
    if ops == [] {
      assert Sent(s, ops) + s.ssl + s.plain == Waiting(s) + Produced(ops);
    } else {
      var s1, rest := Step(s, ops[0]), ops[1..];
      StepKeeps(s, ops[0]);
      NothingLost(s1, rest);
      var r := Run(s1, rest);
      var added := if ops[0].Produce? then ops[0].bytes else [];
      Regroup(Leaving(s, ops[0]), Sent(s1, rest), r.ssl, r.plain, Waiting(s1), Produced(rest), Waiting(s), added);
    }
  }

  lemma Regroup(l: seq<Byte>, sent: seq<Byte>, ssl: seq<Byte>, plain: seq<Byte>, w1: seq<Byte>, p: seq<Byte>,
                w: seq<Byte>, added: seq<Byte>)
    requires sent + ssl + plain == w1 + p && l + w1 == w + added
    ensures (l + sent) + ssl + plain == w + (added + p)
  {
    assert (l + sent) + ssl + plain == l + (sent + ssl + plain);
    assert l + (w1 + p) == (l + w1) + p;
    assert (w + added) + p == w + (added + p);
  }

  // ---------------------------------------------------------------- TLS retries

  ghost predicate OnlyProduces(ops: seq<Op>) {
    forall i :: 0 <= i < |ops| ==> ops[i].Produce?
  }

  lemma {:induction false} ProducingAppends(s: State, ops: seq<Op>)
    requires OnlyProduces(ops)
    ensures Run(s, ops) == s.(plain := s.plain + Produced(ops))
    decreases |ops|
  {
    if ops == [] {
      assert s.plain + Produced(ops) == s.plain;
    } else {
      ProducingAppends(Step(s, ops[0]), ops[1..]);
      assert (s.plain + ops[0].bytes) + Produced(ops[1..]) == s.plain + Produced(ops);
    }
  }

  /** A TLS write that has to be tried again is tried with the same bytes, whatever is produced in between,
      exactly when it had bytes to write or nothing was produced. */
  lemma RetrySame(s: State, ops: seq<Op>)
    requires Valid(s) && s.tls && OnlyProduces(ops) && Allowed(s, Write(0, RetEagain))
    ensures Offered(Run(Step(s, Write(0, RetEagain)), ops)) == Offered(s) <==> Offered(s) != [] || Produced(ops) == []
  {
    var s1 := Step(s, Write(0, RetEagain));
    assert Drop(Swapped(s).ssl, 0) == Swapped(s).ssl;
    assert s1 == Swapped(s);
    ProducingAppends(s1, ops);
    hide Run;
    assert s1.plain + [] == s1.plain;
  }

  // ---------------------------------------------------------------- the code

  class Connection {
    const tls: bool
    const bufferWrite: Buffer
    const bufferWriteSsl: Buffer

    /** Two well-formed buffers with memory of their own. */
    ghost predicate Sound()
      reads bufferWrite, bufferWrite.data, bufferWriteSsl, bufferWriteSsl.data
    {
      && bufferWrite.Valid() && bufferWriteSsl.Valid()
      && bufferWrite != bufferWriteSsl && bufferWrite.data != bufferWriteSsl.data
    }

    ghost function St(): State
      reads bufferWrite, bufferWrite.data, bufferWriteSsl, bufferWriteSsl.data
      requires Sound()
    {
      State(tls, bufferWrite.Content(), bufferWriteSsl.Content())
    }

    constructor (tls: bool)
      ensures Sound() && St() == State(tls, [], [])
      ensures fresh(bufferWrite) && fresh(bufferWrite.data) && fresh(bufferWriteSsl) && fresh(bufferWriteSsl.data)
    {
      this.tls := tls;
      bufferWrite := new Buffer();
      bufferWriteSsl := new Buffer();
    }

    /** The server core adds bytes, as at the end of a SPDY reply. */
    method Add(bytes: seq<Byte>)
      requires Sound()
      modifies bufferWrite, bufferWrite.data
      ensures Sound() && St() == Step(old(St()), Produce(bytes))
      ensures bufferWrite.data == old(bufferWrite.data) || fresh(bufferWrite.data)
    {
      bufferWrite.Add(bytes);
    }

    /** The new bytes go to the buffer TLS writes from, when that one is empty. */
    method SwapBuffers()
      requires Sound()
      modifies bufferWrite, bufferWriteSsl
      ensures Sound() && St() == (if tls then Swapped(old(St())) else old(St()))
      ensures {bufferWrite.data, bufferWriteSsl.data} == {old(bufferWrite.data), old(bufferWriteSsl.data)}
    {
      if tls {
        if bufferWrite.len != 0 && bufferWriteSsl.len == 0 { bufferWriteSsl.Swap(bufferWrite); }
      }
    }

    /** _http2d_connection_do_write; written and ret are what the socket reports. */
    method DoWrite(written: nat, ret: Ret) returns (r: Ret, ghost offered: seq<Byte>)
      requires Sound()
      modifies bufferWrite, bufferWrite.data, bufferWriteSsl, bufferWriteSsl.data
      ensures Sound() && offered == Offered(old(St())) && St() == Step(old(St()), Write(written, ret)) && r == ret
      ensures {bufferWrite.data, bufferWriteSsl.data} == {old(bufferWrite.data), old(bufferWriteSsl.data)}
    {
      SwapBuffers();
      var buf := if tls then bufferWriteSsl else bufferWrite;
      offered := buf.Content();
      if written > 0 { buf.MoveToBegin(written); }
      r := ret;
    }
  }
}
