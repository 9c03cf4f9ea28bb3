/**
 * prospector's console capture.
 *
 * `CaptureStream` is an in-memory text sink; `CaptureOutput` is a context
 * manager that, when asked to hide output, swaps the process-wide handles
 * `sys.stdout`, `sys.stderr`, `sys.__stdout__` and `sys.__stderr__` for two
 * fresh sinks on entry and puts the saved handles back on exit.  The
 * process-wide handles are made explicit here as a `Streams` object that
 * `Enter` and `Exit` receive.
 */
module CaptureUtils {

  datatype Option<T> = None | Some(value: T)

  /** The concatenation of `texts`, in order. */
  function Concat(texts: seq<string>): string
  {
    if texts == [] then "" else Concat(texts[..|texts| - 1]) + texts[|texts| - 1]
  }

  /** An in-memory sink that accumulates everything written to it. */
  class CaptureStream {
    var contents: string

    constructor ()
      ensures contents == ""
    {
      contents := "";
    }

    /** Appends `text` and reports every character as accepted. */
    method Write(text: string) returns (n: nat)
      modifies this
      ensures contents == old(contents) + text
      ensures n == |text|
    {
      contents := contents + text;
      n := |text|;
    }

    /** Does nothing: the sink stays writable. */
    method Close()
      ensures contents == old(contents)
    {
    }

    /** Does nothing: there is nothing to flush. */
    method Flush()
      ensures contents == old(contents)
    {
    }
  }

  /** The process-wide stream handles; a handle is any object, or none. */
  class Streams {
    var stdout: object?
    var stderr: object?
    var dunderStdout: object?   // sys.__stdout__
    var dunderStderr: object?   // sys.__stderr__

    constructor (stdout: object?, stderr: object?, dunderStdout: object?, dunderStderr: object?)
      ensures this.stdout == stdout && this.stderr == stderr
      ensures this.dunderStdout == dunderStdout && this.dunderStderr == dunderStderr
    {
      this.stdout, this.stderr := stdout, stderr;
      this.dunderStdout, this.dunderStderr := dunderStdout, dunderStderr;
    }

    /** The four handles, in the order `CaptureOutput` saves them. */
    function Snapshot(): Handles
      reads this
    {
      Handles(stdout, stderr, dunderStdout, dunderStderr)
    }
  }

  /** A saved tuple `(sys.stdout, sys.stderr, sys.__stdout__, sys.__stderr__)`. */
  datatype Handles = Handles(stdout: object?, stderr: object?, dunderStdout: object?, dunderStderr: object?)

  /** The context manager. */
  class CaptureOutput {
    const hideOutput: bool
    var prevStreams: Option<Handles>
    var stdout: CaptureStream?
    var stderr: CaptureStream?

    /** Stores the flag; nothing is captured yet. */
    constructor (hideOutput: bool)
      ensures this.hideOutput == hideOutput
      ensures prevStreams == None && stdout == null && stderr == null
    {
      this.hideOutput := hideOutput;
      prevStreams, stdout, stderr := None, null, null;
    }

    /**
     * `__enter__`: when hiding, save the four handles and install two fresh
     * sinks, `stdout` as both `sys.stdout` and `sys.__stdout__` and `stderr`
     * as both `sys.stderr` and `sys.__stderr__`.  Otherwise nothing changes.
     */
    method Enter(streams: Streams)
      modifies this, streams
      ensures !hideOutput ==> unchanged(this, streams)
      ensures hideOutput ==>
        && prevStreams == Some(old(streams.Snapshot()))
        && stdout != null && stderr != null && stdout != stderr
        && fresh(stdout) && fresh(stderr)
        && stdout.contents == "" && stderr.contents == ""
        && streams.stdout == stdout && streams.dunderStdout == stdout
        && streams.stderr == stderr && streams.dunderStderr == stderr
    {
      if hideOutput {
        prevStreams := Some(streams.Snapshot());
        stdout := new CaptureStream();
        stderr := new CaptureStream();
        streams.stdout, streams.dunderStdout := stdout, stdout;
        streams.stderr, streams.dunderStderr := stderr, stderr;
      }
    }

    /** `get_hidden_stdout`: what has been written to the stdout sink. */
    method GetHiddenStdout() returns (text: string)
      requires stdout != null
      ensures text == stdout.contents
    {
      text := stdout.contents;
    }

    /** `get_hidden_stderr`: what has been written to the stderr sink. */
    method GetHiddenStderr() returns (text: string)
      requires stderr != null
      ensures text == stderr.contents
    {
      text := stderr.contents;
    }

    /**
     * `__exit__`: when hiding, put back the four saved handles and forget
     * them.  Exiting a hiding scope that was never entered fails the
     * source's assertion, so it is a precondition here.
     */
    method Exit(streams: Streams)
      requires hideOutput ==> prevStreams.Some?
      modifies this, streams
      ensures !hideOutput ==> unchanged(this, streams)
      ensures hideOutput ==>
        && streams.Snapshot() == old(prevStreams).value
        && prevStreams == None
        && stdout == old(stdout) && stderr == old(stderr)
    {
      if hideOutput {
        var saved := prevStreams.value;
        streams.stdout, streams.stderr := saved.stdout, saved.stderr;
        streams.dunderStdout, streams.dunderStderr := saved.dunderStdout, saved.dunderStderr;
        prevStreams := None;
      }
    }
  }

  // ---------------------------------------------------------------------
  // Clients: what the contracts above let a caller prove

  /** Writing several texts to a sink leaves their concatenation after what it held. */
  method WriteAll(sink: CaptureStream, texts: seq<string>)
    modifies sink
    ensures sink.contents == old(sink.contents) + Concat(texts)
  {
    for i := 0 to |texts|
      invariant sink.contents == old(sink.contents) + Concat(texts[..i])
    {
      assert texts[..i + 1][..i] == texts[..i];
      var _ := sink.Write(texts[i]);
    }
    assert texts[..|texts|] == texts;
  }

  /**
   * A `with CaptureOutput(hide=...)` block whose body writes `out` to
   * `sys.stdout`, flushes and closes it, then writes `more`; `Exit` runs
   * after the body whatever it did.  The handles are the same afterwards,
   * and when hiding, the stdout sink holds exactly what the body wrote.
   */
  method CaptureScope(hideOutput: bool, streams: Streams, out: string, more: string) returns (captured: Option<string>)
    modifies streams
    ensures streams.Snapshot() == old(streams.Snapshot())
    ensures hideOutput ==> captured == Some(out + more)
    ensures !hideOutput ==> captured == None
  {
    var capture := new CaptureOutput(hideOutput);
    capture.Enter(streams);
    if hideOutput {
      // sys.stdout is the stdout sink here
      var sink := capture.stdout;
      var _ := sink.Write(out);
      sink.Flush();
      sink.Close();
      var _ := sink.Write(more);
      var text := capture.GetHiddenStdout();
      assert text == "" + out + more;
      assert "" + out == out;
      captured := Some(text);
    } else {
      captured := None;
    }
    capture.Exit(streams);
  }
}
