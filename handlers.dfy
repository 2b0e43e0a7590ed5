/**
 * The handler combinators and filters of handler.go. A handler is modelled
 * by what it answers for a record (None for a nil error) and by whether it
 * implements `HandlerCloser`; a formatter is a function from a record to the
 * text it produces, one character per byte.
 */
module Handlers {
  import opened Wrappers
  import opened Text
  import opened Levels
  import opened Records

  /** A `Filter`: the level filter of the library, or any other implementation. */
  datatype Filter = LevelFilter(level: Level) | CustomFilter(accepts: Record -> bool)
  {
    /** `ShouldLog`. */
    predicate ShouldLog(r: Record) {
      match this
      case LevelFilter(l) => r.level >= l
      case CustomFilter(f) => f(r)
    }
  }

  /** The level filter passes a record exactly when its level is at least the filter's. */
  lemma LevelFilterPasses(l: Level, r: Record)
    ensures LevelFilter(l).ShouldLog(r) <==> l <= r.level
    ensures forall r2: Record :: r2.level >= r.level && LevelFilter(l).ShouldLog(r) ==>
              LevelFilter(l).ShouldLog(r2)
  {
  }

  /** Some filter of the list accepts the record. */
  predicate SomeAccepts(r: Record, filters: seq<Filter>) {
    exists k :: 0 <= k < |filters| && filters[k].ShouldLog(r)
  }

  /** What `shouldLog` decides: no filters let everything through; otherwise
      one accepting filter is enough. */
  predicate Passes(r: Record, filters: seq<Filter>) {
    filters == [] || SomeAccepts(r, filters)
  }

  /** `shouldLog`: the loop that ors the answers of all filters. */
  method ShouldLogAll(record: Record, filters: seq<Filter>) returns (res: bool)
    ensures res <==> Passes(record, filters)
    ensures filters == [] ==> res
    ensures filters != [] ==> (res <==> exists k :: 0 <= k < |filters| && filters[k].ShouldLog(record))
  {
    if |filters| == 0 {
      return true;
    }
    res := false;
    var i := 0;
    while i < |filters|
      invariant 0 <= i <= |filters|
      invariant res <==> exists k :: 0 <= k < i && filters[k].ShouldLog(record)
    {
      res := res || filters[i].ShouldLog(record);
      i := i + 1;
    }
  }

  /** Adding a filter to a non-empty list never turns acceptance into
      rejection; the empty list is the exception, since it accepts everything
      and one rejecting filter then rejects. */
  lemma PassesMonotone(r: Record, filters: seq<Filter>, f: Filter)
    ensures filters != [] && Passes(r, filters) ==> Passes(r, filters + [f])
    ensures filters != [] && Passes(r, filters) ==> Passes(r, [f] + filters)
    ensures Passes(r, []) && !Passes(r, [LevelFilter(r.level + 1)])
  {
    if filters != [] && Passes(r, filters) {
      var k :| 0 <= k < |filters| && filters[k].ShouldLog(r);
      assert (filters + [f])[k] == filters[k];
      assert ([f] + filters)[k + 1] == filters[k];
    }
    assert !LevelFilter(r.level + 1).ShouldLog(r);
  }

  /** An inner handler: an identity, whether it implements `HandlerCloser`,
      and the error it returns for a record. */
  datatype Handler = Handler(id: nat, closer: bool, handle: Record -> Option<string>)

  /** One call of an inner handler's `Handle`. */
  datatype Call = Call(handler: nat, record: Record)

  /** `combiningHandler.Handle`: call every handler in order with the record;
      `err` is overwritten by each call, so the last handler's error is
      returned and earlier ones are lost. */
  method CombiningHandle(handlers: seq<Handler>, record: Record) returns (err: Option<string>, calls: seq<Call>)
    ensures |calls| == |handlers|
    ensures forall k :: 0 <= k < |handlers| ==> calls[k] == Call(handlers[k].id, record)
    ensures handlers == [] ==> err == None
    ensures handlers != [] ==> err == handlers[|handlers| - 1].handle(record)
  {
    err := None;
    calls := [];
    var i := 0;
    while i < |handlers|
      invariant 0 <= i <= |handlers| && |calls| == i
      invariant forall k :: 0 <= k < i ==> calls[k] == Call(handlers[k].id, record)
      invariant i == 0 ==> err == None
      invariant i > 0 ==> err == handlers[i - 1].handle(record)
    {
      err := handlers[i].handle(record);
      calls := calls + [Call(handlers[i].id, record)];
      i := i + 1;
    }
  }

  /** The identities of the closeable handlers, in list order. */
  function Closers(handlers: seq<Handler>): seq<nat>
    decreases |handlers|
  {
    if handlers == [] then []
    else
      var last := handlers[|handlers| - 1];
      Closers(handlers[..|handlers| - 1]) + (if last.closer then [last.id] else [])
  }

  /** Closing a concatenation closes the first list's closers, then the
      second's; a single handler is closed exactly when it is a closer. With
      these two equations `Closers` is fixed: one `Close` per closeable
      handler, in list order. */
  lemma {:induction false} ClosersAppend(a: seq<Handler>, b: seq<Handler>)
    ensures Closers(a + b) == Closers(a) + Closers(b)
    ensures |b| == 1 ==> Closers(b) == if b[0].closer then [b[0].id] else []
    decreases |b|
  {
    if b != [] {
      var init := b[..|b| - 1];
      assert (a + b)[..|a + b| - 1] == a + init;
      assert (a + b)[|a + b| - 1] == b[|b| - 1];
      ClosersAppend(a, init);
      if |b| == 1 {
        assert init == [];
      }
    } else {
      assert a + b == a;
    }
  }

  /** Exactly the closeable handlers are closed, one `Close` each, and their
      order is that of the list: cutting the list anywhere splits the closed
      identities at the same point, and a single handler contributes its
      identity exactly when it is a closer. */
  lemma ClosersExactly(handlers: seq<Handler>)
    ensures forall k :: 0 <= k <= |handlers| ==>
              Closers(handlers) == Closers(handlers[..k]) + Closers(handlers[k..])
    ensures forall k :: 0 <= k < |handlers| ==>
              Closers(handlers[k..k + 1]) == if handlers[k].closer then [handlers[k].id] else []
    ensures |Closers(handlers)| <= |handlers|
    ensures forall k :: 0 <= k < |handlers| && handlers[k].closer ==> handlers[k].id in Closers(handlers)
    ensures forall x :: x in Closers(handlers) ==>
              exists k :: 0 <= k < |handlers| && handlers[k].closer && handlers[k].id == x
    ensures (forall k :: 0 <= k < |handlers| ==> handlers[k].closer) ==>
              Closers(handlers) == seq(|handlers|, k requires 0 <= k < |handlers| => handlers[k].id)
    ensures (forall k :: 0 <= k < |handlers| ==> !handlers[k].closer) ==> Closers(handlers) == []
  {
    ClosersSplit(handlers);
    ClosersSingles(handlers);
    ClosersMembers(handlers);
    ClosersAllOrNone(handlers);
  }

  lemma ClosersSplit(handlers: seq<Handler>)
    ensures forall k :: 0 <= k <= |handlers| ==>
              Closers(handlers) == Closers(handlers[..k]) + Closers(handlers[k..])
  {
    forall k | 0 <= k <= |handlers|
      ensures Closers(handlers) == Closers(handlers[..k]) + Closers(handlers[k..])
    {
      assert handlers == handlers[..k] + handlers[k..];
      ClosersAppend(handlers[..k], handlers[k..]);
    }
  }

  lemma ClosersSingles(handlers: seq<Handler>)
    ensures forall k :: 0 <= k < |handlers| ==>
              Closers(handlers[k..k + 1]) == if handlers[k].closer then [handlers[k].id] else []
  {
    forall k | 0 <= k < |handlers|
      ensures Closers(handlers[k..k + 1]) == if handlers[k].closer then [handlers[k].id] else []
    {
      ClosersAppend([], handlers[k..k + 1]);
    }
  }

  lemma {:induction false} ClosersMembers(handlers: seq<Handler>)
    ensures |Closers(handlers)| <= |handlers|
    ensures forall k :: 0 <= k < |handlers| && handlers[k].closer ==> handlers[k].id in Closers(handlers)
    ensures forall x :: x in Closers(handlers) ==>
              exists k :: 0 <= k < |handlers| && handlers[k].closer && handlers[k].id == x
    decreases |handlers|
  {
    if handlers != [] {
      var init := handlers[..|handlers| - 1];
      ClosersMembers(init);
      assert forall k :: 0 <= k < |init| ==> init[k] == handlers[k];
    }
  }

  lemma {:induction false} ClosersAllOrNone(handlers: seq<Handler>)
    ensures (forall k :: 0 <= k < |handlers| ==> handlers[k].closer) ==>
              Closers(handlers) == seq(|handlers|, k requires 0 <= k < |handlers| => handlers[k].id)
    ensures (forall k :: 0 <= k < |handlers| ==> !handlers[k].closer) ==> Closers(handlers) == []
    decreases |handlers|
  {
    if handlers != [] {
      var init := handlers[..|handlers| - 1];
      ClosersAllOrNone(init);
      assert forall k :: 0 <= k < |init| ==> init[k] == handlers[k];
    }
  }

  /** `combiningHandler.Close`: the loop that closes the handlers that
      implement `HandlerCloser`; `closed` lists the closed identities. */
  method CombiningClose(handlers: seq<Handler>) returns (closed: seq<nat>)
    ensures closed == Closers(handlers)
  {
    closed := [];
    var i := 0;
    while i < |handlers|
      invariant 0 <= i <= |handlers|
      invariant closed == Closers(handlers[..i])
    {
      assert handlers[..i + 1][..i] == handlers[..i];
      if handlers[i].closer {
        closed := closed + [handlers[i].id];
      }
      i := i + 1;
    }
    assert handlers[..i] == handlers;
  }

  // ---------------------------------------------------------------------
  // StdoutHandler

  /** `StdoutHandler`: an optional formatter and its filters. */
  datatype StdoutHandler = StdoutHandler(formatter: Option<Record -> string>, filters: seq<Filter>)

  /** The decimal byte values of `b`, separated by single spaces. */
  function ByteValues(b: string): string
    decreases |b|
  {
    if b == [] then ""
    else if |b| == 1 then Decimal(b[0] as nat)
    else Decimal(b[0] as nat) + " " + ByteValues(b[1..])
  }

  /** What `fmt.Fprintln` writes for one `[]byte` operand: the `%v` form of a
      byte slice, which is its byte values in brackets, and a newline. */
  function FprintlnBytes(b: string): (out: string)
    ensures |out| >= 3 && out[0] == '[' && out[|out| - 2] == ']' && out[|out| - 1] == '\n'
  {
    "[" + ByteValues(b) + "]" + "\n"
  }

  /** The formatter a handler uses: its own, or the package default. */
  function FormatterOf(sh: StdoutHandler, defaultFormatter: Record -> string): Record -> string {
    if sh.formatter.None? then defaultFormatter else sh.formatter.value
  }

  /** `StdoutHandler.Handle` as written: a rejected record writes nothing and
      returns nil; otherwise the formatted bytes go to `fmt.Fprintln`, whose
      error (`writeErr`, from the output stream) is returned. */
  method StdoutHandle(sh: StdoutHandler, record: Record, defaultFormatter: Record -> string,
                      writeErr: Option<string>)
    returns (written: string, err: Option<string>)
    ensures !Passes(record, sh.filters) ==> written == "" && err == None
    ensures Passes(record, sh.filters) ==>
              written == FprintlnBytes(FormatterOf(sh, defaultFormatter)(record)) && err == writeErr
  {
    var ok := ShouldLogAll(record, sh.filters);
    if !ok {
      return "", None;
    }
    var chosen := FormatterOf(sh, defaultFormatter);
    written := FprintlnBytes(chosen(record));
    err := writeErr;
  }

  /** For a record formatted as "a\n", the handler as written prints the
      byte list "[97 10]" and a newline instead of the formatted line. */
  lemma StdoutPrintsByteList()
    ensures FprintlnBytes("a\n") == "[97 10]\n"
    ensures FprintlnBytes("a\n") != "a\n"
  {
    assert Decimal(97) == Decimal(9) + [DigitChar(7)];
    assert Decimal(10) == Decimal(1) + [DigitChar(0)];
    assert ByteValues("a\n") == Decimal(97) + " " + ByteValues("\n");
  }

  /** `StdoutHandler.Handle` as intended: the formatter's output, which
      already ends with its newline, is written unchanged. */
  method StdoutHandleIntended(sh: StdoutHandler, record: Record, defaultFormatter: Record -> string,
                              writeErr: Option<string>)
    returns (written: string, err: Option<string>)
    ensures !Passes(record, sh.filters) ==> written == "" && err == None
    ensures Passes(record, sh.filters) ==>
              written == FormatterOf(sh, defaultFormatter)(record) && err == writeErr
  {
    var ok := ShouldLogAll(record, sh.filters);
    if !ok {
      return "", None;
    }
    var chosen := FormatterOf(sh, defaultFormatter);
    written := chosen(record);
    err := writeErr;
  }
}
