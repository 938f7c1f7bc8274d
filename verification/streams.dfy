/**
 * The connection's output side and the two writers run() layers over it: a
 * PrintWriter for the header text and a BufferedOutputStream for the body.
 * Each writer buffers what it is given and hands it to the connection only
 * when flushed.
 */
module Streams {
  import opened Responses

  /** The client socket: everything that has reached the client, in order. */
  class Socket {
    var sent: seq<WireItem>

    constructor ()
      ensures sent == []
    {
      sent := [];
    }
  }

  class PrintWriter {
    const sink: Socket
    /** The platform line separator println appends. */
    const lineSeparator: string
    var pending: string

    constructor (sink: Socket, lineSeparator: string)
      ensures this.sink == sink && this.lineSeparator == lineSeparator && pending == []
    {
      this.sink := sink;
      this.lineSeparator := lineSeparator;
      pending := [];
    }

    method Println(line: string)
      modifies this
      ensures pending == old(pending) + line + lineSeparator
    {
      pending := pending + line + lineSeparator;
    }

    method Flush()
      modifies this, sink
      ensures sink.sent == old(sink.sent) + Chars(old(pending))
      ensures pending == []
    {
      sink.sent := sink.sent + Chars(pending);
      pending := [];
    }
  }

  class BufferedOutputStream {
    const sink: Socket
    var pending: seq<byte>

    constructor (sink: Socket)
      ensures this.sink == sink && pending == []
    {
      this.sink := sink;
      pending := [];
    }

    /** write(b, off, len): the `len` bytes of `data` starting at `off`. */
    method Write(data: seq<byte>, off: nat, len: nat)
      requires off + len <= |data|
      modifies this
      ensures pending == old(pending) + data[off..off + len]
    {
      pending := pending + data[off..off + len];
    }

    method Flush()
      modifies this, sink
      ensures sink.sent == old(sink.sent) + Bytes(old(pending))
      ensures pending == []
    {
      sink.sent := sink.sent + Bytes(pending);
      pending := [];
    }
  }
}
