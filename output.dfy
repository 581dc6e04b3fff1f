/** The writer `list_profiles` and `render_to_writer` write to (src/lib.rs:665-672, 919-989),
    as `write_all` sees it: a `Vec<u8>` that never fails, or the test writer `FailAfterN`
    (src/lib.rs:1426-1442), whose `fail_on`-th call to `write` fails. `write_all` of an empty
    buffer makes no call at all; a non-empty one makes exactly one, since these writers accept
    the whole buffer at once. Bytes are modelled as characters. */
module Output {
  import opened Wrappers

  /** What a writer has accepted, and how many calls to `write` it has seen. */
  datatype Stream = Stream(written: string, calls: nat)

  /** The outcome of one or more writes, and the stream after them. */
  datatype Emitted = Emitted(outcome: Outcome<string>, stream: Stream)

  /** `w.write_all(buf)` where the writer's `failOn`-th call fails with `failure`; a writer
      with `failOn == 0` never fails. A failing call accepts nothing. */
  function Put(s: Stream, failOn: nat, failure: string, buf: string): (e: Emitted)
    ensures e.outcome.Fail? ==> e.outcome.error == failure && e.stream.written == s.written
    ensures e.outcome.Pass? ==> e.stream.written == s.written + buf
    ensures e.stream.calls == if buf == [] then s.calls else s.calls + 1
  {
    if buf == [] then Emitted(Pass, s)
    else if s.calls + 1 == failOn then Emitted(Fail(failure), s.(calls := s.calls + 1))
    else Emitted(Pass, Stream(s.written + buf, s.calls + 1))
  }

  /** `write_all` of each chunk in turn, stopping at the first failure. */
  function PutAll(s: Stream, failOn: nat, failure: string, chunks: seq<string>): Emitted
    decreases |chunks|
  {
    if chunks == [] then Emitted(Pass, s)
    else
      var e := Put(s, failOn, failure, chunks[0]);
      if e.outcome.Fail? then e
      else PutAll(e.stream, failOn, failure, chunks[1..])
  }

  function Concat(chunks: seq<string>): string
    decreases |chunks|
  {
    if chunks == [] then [] else chunks[0] + Concat(chunks[1..])
  }

  /** Writing `a` and then `b` is writing `a + b`. */
  lemma {:induction false} PutAllThen(s: Stream, failOn: nat, failure: string, a: seq<string>, b: seq<string>)
    ensures PutAll(s, failOn, failure, a + b) ==
      var e := PutAll(s, failOn, failure, a);
      if e.outcome.Fail? then e else PutAll(e.stream, failOn, failure, b)
    decreases |a|
  {
    if a == [] {
      assert a + b == b;
    } else {
      assert (a + b)[0] == a[0] && (a + b)[1..] == a[1..] + b;
      var e := Put(s, failOn, failure, a[0]);
      if e.outcome.Pass? {
        PutAllThen(e.stream, failOn, failure, a[1..], b);
      }
    }
  }

  /** The writer cannot fail from this point on: its failing call, if any, is behind it. */
  predicate Reliable(s: Stream, failOn: nat) {
    failOn <= s.calls
  }

  lemma Regroup(a: string, b: string, c: string)
    ensures a + b + c == a + (b + c)
  {
  }

  /** A writer that cannot fail accepts every chunk, in order. */
  lemma {:induction false} PutAllReliable(s: Stream, failOn: nat, failure: string, chunks: seq<string>)
    requires Reliable(s, failOn)
    ensures PutAll(s, failOn, failure, chunks).outcome == Pass
    ensures PutAll(s, failOn, failure, chunks).stream.written == s.written + Concat(chunks)
    decreases |chunks|
  {
    if chunks == [] {
      assert s.written + Concat(chunks) == s.written;
    } else {
      var e := Put(s, failOn, failure, chunks[0]);
      PutAllReliable(e.stream, failOn, failure, chunks[1..]);
      Regroup(s.written, chunks[0], Concat(chunks[1..]));
    }
  }

  /** Whatever the writer, what it accepted is the first `k` chunks: on success all of them,
      on failure those before the failing one, and nothing after it. */
  lemma {:induction false} PutAllPrefix(s: Stream, failOn: nat, failure: string, chunks: seq<string>)
    ensures var e := PutAll(s, failOn, failure, chunks);
      exists k :: 0 <= k <= |chunks| && e.stream.written == s.written + Concat(chunks[..k])
        && (e.outcome.Pass? ==> k == |chunks|)
        && (e.outcome.Fail? ==> k < |chunks| && e.outcome.error == failure)
    decreases |chunks|
  {
    var e := PutAll(s, failOn, failure, chunks);
    if chunks == [] {
      assert e.stream.written == s.written + Concat(chunks[..0]);
    } else {
      var first := Put(s, failOn, failure, chunks[0]);
      if first.outcome.Fail? {
        assert chunks[..0] == [];
        assert e.stream.written == s.written + Concat(chunks[..0]);
      } else {
        PutAllPrefix(first.stream, failOn, failure, chunks[1..]);
        var k :| 0 <= k <= |chunks[1..]| && e.stream.written == first.stream.written + Concat(chunks[1..][..k])
          && (e.outcome.Pass? ==> k == |chunks[1..]|)
          && (e.outcome.Fail? ==> k < |chunks[1..]| && e.outcome.error == failure);
        assert chunks[..k + 1][0] == chunks[0] && chunks[..k + 1][1..] == chunks[1..][..k];
        Regroup(s.written, chunks[0], Concat(chunks[1..][..k]));
        assert e.stream.written == s.written + Concat(chunks[..k + 1]);
      }
    }
  }

  /** A writer: `Vec<u8>` (`failOn == 0`) or `FailAfterN { writes_done: 0, fail_on }`. */
  class Sink {
    var written: string
    var calls: nat
    const failOn: nat
    const failure: string

    constructor (failOn: nat, failure: string)
      ensures written == [] && calls == 0 && this.failOn == failOn && this.failure == failure
    {
      written, calls := [], 0;
      this.failOn, this.failure := failOn, failure;
    }

    function State(): Stream
      reads this
    {
      Stream(written, calls)
    }

    /** `write_all`. */
    method WriteAll(buf: string) returns (r: Outcome<string>)
      modifies this
      ensures Emitted(r, State()) == Put(old(State()), failOn, failure, buf)
    {
      if buf == [] {
        return Pass;
      }
      calls := calls + 1;
      if calls == failOn {
        return Fail(failure);
      }
      written := written + buf;
      return Pass;
    }
  }
}
