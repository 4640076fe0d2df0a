/**
  The connection object of muduo/net/TcpConnection.cc over its channel and its
  output buffer.  Each method does to the objects what the step of the same name
  in Connection does to the value, so everything proved there holds here.
*/
module TcpConnection {
  import opened Buf = Buffer
  import opened Connection
  import Ch = Channel

  class TcpConnection {
    const channel: Ch.Channel
    const outputBuffer: Buf.Buffer
    const config: Config
    var phase: Phase
    var reading: bool
    var tasks: seq<Connection.Task>
    var notices: seq<Notice>
    ghost var halfClosed: bool
    ghost var kernel: seq<Byte>
    ghost var admitted: seq<Byte>

    ghost predicate Valid()
      reads this, outputBuffer
    {
      outputBuffer.Valid() && outputBuffer.store.Length >= CHEAP_PREPEND
    }

    ghost function Abs(): Conn
      requires Valid()
      reads this, channel, outputBuffer, outputBuffer.store
    {
      Conn(phase, reading, channel.IsReading(), channel.IsWriting(), outputBuffer.Contents(), halfClosed,
           tasks, notices, kernel, admitted)
    }

    /** TcpConnection.cc:38-64. */
    constructor (fd: nat, config: Config)
      ensures Valid() && Abs() == NEW_CONN && this.config == config
      ensures fresh(channel) && fresh(outputBuffer) && fresh(outputBuffer.store)
    {
      channel := new Ch.Channel(fd);
      outputBuffer := new Buf.Buffer(INITIAL_SIZE);
      this.config := config;
      phase, reading := Connecting, true;
      tasks, notices := [], [];
      halfClosed, kernel, admitted := false, [], [];
    }

    method SendInLoop(msg: seq<Byte>, w: WriteResult)
      requires Valid() && KernelMay(Abs(), |msg|, w)
      modifies this, channel, outputBuffer, outputBuffer.store
      ensures Valid() && (outputBuffer.store == old(outputBuffer.store) || fresh(outputBuffer.store))
      ensures Abs() == Connection.SendInLoop(old(Abs()), config, msg, w)
    {
      hide Ch.Reads, Ch.Writes, Ch.Interest;
      var nwrote := 0;
      var remaining := |msg|;
      var faultError := false;
      if phase == Disconnected {
        return;
      }
      if !channel.IsWriting() && outputBuffer.ReadableBytes() == 0 {
        match w
        case Wrote(n) =>
          nwrote := n;
          kernel := kernel + msg[..n];
          remaining := |msg| - nwrote;
          if remaining == 0 && config.onWriteComplete {
            notices := notices + [WriteComplete];
          }
        case Broken =>
          faultError := true;
        case _ =>
      }
      if !faultError {
        admitted := admitted + msg;
      }
      if !faultError && remaining > 0 {
        BufferRemaining(msg[nwrote..]);
      }
    }

    method BufferRemaining(rest: seq<Byte>)
      requires Valid() && rest != []
      modifies this`notices, channel`events, outputBuffer, outputBuffer.store
      ensures Valid() && (outputBuffer.store == old(outputBuffer.store) || fresh(outputBuffer.store))
      ensures Abs() == BufferRest(old(Abs()), config, rest)
    {
      hide Ch.Reads, Ch.Writes, Ch.Interest;
      var oldLen := outputBuffer.ReadableBytes();
      if oldLen + |rest| >= config.highWaterMark && oldLen < config.highWaterMark && config.onHighWater {
        notices := notices + [HighWater(oldLen + |rest|)];
      }
      outputBuffer.Append(rest);
      if !channel.IsWriting() {
        channel.EnableWriting();
      }
    }

    method ShutdownInLoop()
      requires Valid()
      modifies this`halfClosed
      ensures Valid() && Abs() == Connection.ShutdownInLoop(old(Abs()))
    {
      if !channel.IsWriting() {
        halfClosed := true;
      }
    }

    method HandleWrite(w: WriteResult)
      requires Valid() && KernelMay(Abs(), |Abs().output|, w)
      modifies this, channel, outputBuffer
      ensures Valid() && outputBuffer.store == old(outputBuffer.store)
      ensures Abs() == Connection.HandleWrite(old(Abs()), config, w)
    {
      hide Ch.Reads, Ch.Writes, Ch.Interest;
      if channel.IsWriting() && w.Wrote? && w.n > 0 {
        kernel := kernel + outputBuffer.Contents()[..w.n];
        outputBuffer.Retrieve(w.n);
        if outputBuffer.ReadableBytes() == 0 {
          channel.DisableWriting();
          if config.onWriteComplete {
            notices := notices + [WriteComplete];
          }
          if phase == Disconnecting {
            ShutdownInLoop();
          }
        }
      }
    }

    method HandleClose()
      requires Valid() && (phase == Connected || phase == Disconnecting)
      modifies this`phase, channel`events
      ensures Valid() && Abs() == Connection.HandleClose(old(Abs()))
    {
      phase := Disconnected;
      channel.DisableAll();
    }

    method ConnectEstablished()
      requires Valid() && phase == Connecting
      modifies this`phase, channel`events
      ensures Valid() && Abs() == Step(old(Abs()), config, Establish)
    {
      phase := Connected;
      channel.EnableReading();
    }

    method ConnectDestroyed()
      requires Valid() && Allowed(Abs(), Destroy)
      modifies this`phase, channel`events
      ensures Valid() && Abs() == Step(old(Abs()), config, Destroy)
    {
      if phase == Connected {
        phase := Disconnected;
        channel.DisableAll();
      }
    }

    method StartReadInLoop()
      requires Valid()
      modifies this`reading, channel`events
      ensures Valid() && Abs() == Step(old(Abs()), config, StartRead)
    {
      if !reading || !channel.IsReading() {
        channel.EnableReading();
        reading := true;
      }
    }

    method StopReadInLoop()
      requires Valid()
      modifies this`reading, channel`events
      ensures Valid() && Abs() == Step(old(Abs()), config, StopRead)
    {
      if reading || channel.IsReading() {
        channel.DisableReading();
        reading := false;
      }
    }

    method Send(msg: seq<Byte>, inLoop: bool, w: WriteResult)
      requires Valid() && KernelMay(Abs(), |msg|, w)
      modifies this, channel, outputBuffer, outputBuffer.store
      ensures Valid() && (outputBuffer.store == old(outputBuffer.store) || fresh(outputBuffer.store))
      ensures Abs() == Step(old(Abs()), config, Connection.Send(msg, inLoop, w))
    {
      hide Ch.Reads, Ch.Writes, Ch.Interest;
      if phase == Connected {
        if inLoop {
          SendInLoop(msg, w);
        } else {
          tasks := tasks + [SendTask(msg)];
        }
      }
    }

    method Shutdown(inLoop: bool)
      requires Valid()
      modifies this
      ensures Valid() && Abs() == Step(old(Abs()), config, Connection.Shutdown(inLoop))
    {
      if phase == Connected {
        phase := Disconnecting;
        if inLoop {
          ShutdownInLoop();
        } else {
          tasks := tasks + [ShutdownTask];
        }
      }
    }

    method ForceClose()
      requires Valid()
      modifies this
      ensures Valid() && Abs() == Step(old(Abs()), config, Connection.ForceClose)
    {
      if phase == Connected || phase == Disconnecting {
        phase := Disconnecting;
        tasks := tasks + [ForceCloseTask];
      }
    }

    method ForceCloseInLoop()
      requires Valid()
      modifies this`phase, channel`events
      ensures Valid() && Abs() == Connection.ForceCloseInLoop(old(Abs()))
    {
      if phase == Connected || phase == Disconnecting {
        HandleClose();
      }
    }

    /** The loop takes this connection's next call out of its queue and makes it. */
    method RunNextTask(w: WriteResult)
      requires Valid() && Allowed(Abs(), Connection.Call.Task(w))
      modifies this, channel, outputBuffer, outputBuffer.store
      ensures Valid() && (outputBuffer.store == old(outputBuffer.store) || fresh(outputBuffer.store))
      ensures Abs() == Step(old(Abs()), config, Connection.Call.Task(w))
    {
      hide Ch.Reads, Ch.Writes, Ch.Interest;
      var next := tasks[0];
      tasks := tasks[1..];
      match next
      case SendTask(msg) => SendInLoop(msg, w);
      case ShutdownTask => ShutdownInLoop();
      case ForceCloseTask => ForceCloseInLoop();
    }
  }
}
