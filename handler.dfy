/**
  The objects `emit` works on: the log record it formats in place, the
  formatter shared by the handler and its fallback, the fallback stream
  handler, the database session, the handler itself and the logger that
  `get_logger` configures.
 */
module Handlers {
  import opened Wrappers
  import opened PyValues
  import opened Formatting
  import opened Emission

  /** A `logging.LogRecord`: its attribute dictionary, changed in place by `format`. */
  class LogRecord {
    var attrs: Attrs

    constructor(attrs: Attrs)
      ensures this.attrs == attrs
    {
      this.attrs := attrs;
    }
  }

  /** A `logging.Formatter`: an empty format string falls back to `%(message)s`. */
  class Formatter {
    const fmt: string

    constructor(fmt: string)
      ensures this.fmt == (if fmt == "" then DefaultFormatterFormat else fmt)
    {
      this.fmt := if fmt == "" then DefaultFormatterFormat else fmt;
    }
  }

  /** The format `Handler.format` applies: the handler's formatter's, or `logging._defaultFormatter`'s. */
  function EffectiveFormat(formatter: Formatter?): string {
    if formatter == null then DefaultFormatterFormat else formatter.fmt
  }

  /** One record the fallback handler wrote out: the record, the format it used, and the attributes it rendered. */
  datatype FallbackLine = FallbackLine(record: LogRecord, fmt: string, attrs: Attrs)

  /** The `logging.StreamHandler` a `DatabaseHandler` falls back to; `lines` is what it wrote to stderr. */
  class StreamHandler {
    var formatter: Formatter?
    var lines: seq<FallbackLine>

    constructor()
      ensures formatter == null && lines == []
    {
      formatter := null;
      lines := [];
    }

    method SetFormatter(f: Formatter?)
      modifies this
      ensures formatter == f && lines == old(lines)
    {
      formatter := f;
    }

    /**
      `StreamHandler.emit`: formats the record in place with the library
      formatter (`message`, `asctime` when the format uses time, `exc_text`),
      then writes it out once.
     */
    method Emit(record: LogRecord, ext: Externals)
      modifies this, record
      ensures formatter == old(formatter)
      ensures record.attrs == Render(old(record.attrs), UsesTime(EffectiveFormat(formatter)), ext)
      ensures lines == old(lines) + [FallbackLine(record, EffectiveFormat(formatter), record.attrs)]
    {
      record.attrs := Render(record.attrs, UsesTime(EffectiveFormat(formatter)), ext);
      lines := lines + [FallbackLine(record, EffectiveFormat(formatter), record.attrs)];
    }
  }

  /**
    The ORM session: rows committed to the `logentry` table and rows added
    since the last commit or rollback.
   */
  class Session {
    var committed: seq<Entry>
    var pending: seq<Entry>

    constructor()
      ensures committed == [] && pending == []
    {
      committed := [];
      pending := [];
    }

    /** Creating an `Events` entity adds its row to the session. */
    method Add(e: Entry)
      modifies this
      ensures committed == old(committed) && pending == old(pending) + [e]
    {
      pending := pending + [e];
    }

    /** Whether the database accepts the commit is decided outside the model. */
    method Commit(succeeds: bool) returns (ok: bool)
      modifies this
      ensures ok == succeeds
      ensures ok ==> committed == old(committed) + old(pending) && pending == []
      ensures !ok ==> committed == old(committed) && pending == old(pending)
    {
      ok := succeeds;
      if ok {
        committed := committed + pending;
        pending := [];
      }
    }

    method Rollback()
      modifies this
      ensures committed == old(committed) && pending == []
    {
      pending := [];
    }
  }

  /**
    `DatabaseHandler`: writes each record to the session, and to its fallback
    stream handler when the commit fails.
   */
  class DatabaseHandler {
    var formatter: Formatter?
    const fallback: StreamHandler
    const session: Session

    /** The handler and its fallback render with the same formatter. */
    ghost predicate Valid()
      reads this, fallback
    {
      formatter == fallback.formatter
    }

    constructor(session: Session)
      ensures formatter == null && this.session == session
      ensures fresh(fallback) && fallback.lines == []
      ensures Valid()
    {
      formatter := null;
      fallback := new StreamHandler();
      this.session := session;
    }

    /** Sets the formatter of the handler and of its fallback. */
    method SetFormatter(f: Formatter?)
      modifies this, fallback
      ensures formatter == f && fallback.formatter == f
      ensures fallback.lines == old(fallback.lines)
      ensures Valid()
    {
      formatter := f;
      fallback.SetFormatter(f);
    }

    /**
      `format`, assignment by assignment. The record ends as `FormatSpec`
      says, and `raised` is the exception that stopped it, if any.
     */
    method Format(record: LogRecord, ext: Externals) returns (raised: Option<PyError>)
      modifies record
      ensures Step(record.attrs, raised) == FormatSpec(old(record.attrs), UsesTime(EffectiveFormat(formatter)), ext)
    {
      raised := EnrichRecord(record, ext);
      if raised.Some? {
        return;
      }
      record.attrs := Render(record.attrs, UsesTime(EffectiveFormat(formatter)), ext);
      raised := RewriteRecordAsctime(record);
      if raised.Some? {
        return;
      }
      raised := CoerceRecord(record, CoercedNames);
    }

    /** `handleError`: the record goes to the fallback handler, which formats it again and writes it. */
    method HandleError(record: LogRecord, ext: Externals)
      requires Valid()
      modifies fallback, record
      ensures Valid()
      ensures fallback.formatter == old(fallback.formatter)
      ensures record.attrs == Render(old(record.attrs), UsesTime(EffectiveFormat(fallback.formatter)), ext)
      ensures fallback.lines == old(fallback.lines) + [FallbackLine(record, EffectiveFormat(fallback.formatter), record.attrs)]
    {
      fallback.Emit(record, ext);
    }

    /**
      `emit`: format, then store. An exception from `format` or from building
      the row leaves `emit` unhandled (`Raised`).
     */
    method Emit(record: LogRecord, ext: Externals, commitSucceeds: bool) returns (outcome: EmitOutcome)
      requires Valid()
      modifies record, session, fallback
      ensures Valid()
      ensures var r := EmitSpec(old(record.attrs), UsesTime(EffectiveFormat(formatter)), ext, commitSucceeds,
                                old(session.committed), old(session.pending));
        && outcome == r.outcome
        && record.attrs == r.attrs
        && session.committed == r.committed
        && session.pending == r.pending
        && fallback.lines == old(fallback.lines) +
             (if r.toFallback then [FallbackLine(record, EffectiveFormat(formatter), record.attrs)] else [])
    {
      var raised := Format(record, ext);
      if raised.Some? {
        return Raised(raised.value);
      }
      outcome := Store(record, ext, commitSucceeds);
    }

    /**
      Builds the row, adds it to the session and commits; on failure rolls
      back and falls back. The fallback renders with the handler's own format.
     */
    method Store(record: LogRecord, ext: Externals, commitSucceeds: bool) returns (outcome: EmitOutcome)
      requires Valid()
      modifies session, fallback, record
      ensures Valid()
      ensures var r := StoreSpec(old(record.attrs), UsesTime(EffectiveFormat(formatter)), ext, commitSucceeds,
                                 old(session.committed), old(session.pending));
        && outcome == r.outcome
        && record.attrs == r.attrs
        && session.committed == r.committed
        && session.pending == r.pending
        && fallback.lines == old(fallback.lines) +
             (if r.toFallback then [FallbackLine(record, EffectiveFormat(formatter), record.attrs)] else [])
    {
      var built := BuildEntry(record.attrs);
      if built.Failure? {
        return Raised(built.error);
      }
      outcome := StoreEntry(record, ext, built.value, commitSucceeds);
    }

    /** Adds the built row to the session and commits; a failed commit falls back. */
    method StoreEntry(record: LogRecord, ext: Externals, entry: Entry, commitSucceeds: bool) returns (outcome: EmitOutcome)
      requires Valid()
      modifies session, fallback, record
      ensures Valid()
      ensures outcome == (if commitSucceeds then Committed else FellBack)
      ensures commitSucceeds ==>
        && session.committed == old(session.committed) + old(session.pending) + [entry] && session.pending == []
        && record.attrs == old(record.attrs) && fallback.lines == old(fallback.lines)
      ensures !commitSucceeds ==>
        && session.committed == old(session.committed) && session.pending == []
        && record.attrs == Render(old(record.attrs), UsesTime(EffectiveFormat(formatter)), ext)
        && fallback.lines == old(fallback.lines) + [FallbackLine(record, EffectiveFormat(formatter), record.attrs)]
    {
      session.Add(entry);
      var ok := session.Commit(commitSucceeds);
      if !ok {
        FallBack(record, ext);
        return FellBack;
      }
      return Committed;
    }

    /** The `except` branch of `emit`: roll the session back, then `handleError`. */
    method FallBack(record: LogRecord, ext: Externals)
      requires Valid()
      modifies session, fallback, record
      ensures Valid()
      ensures session.committed == old(session.committed) && session.pending == []
      ensures record.attrs == Render(old(record.attrs), UsesTime(EffectiveFormat(formatter)), ext)
      ensures fallback.lines == old(fallback.lines) + [FallbackLine(record, EffectiveFormat(formatter), record.attrs)]
    {
      session.Rollback();
      HandleError(record, ext);
    }
  }

  /** The enrichment at the head of `format`. */
  method EnrichRecord(record: LogRecord, ext: Externals) returns (raised: Option<PyError>)
    modifies record
    ensures Step(record.attrs, raised) == Enrich(old(record.attrs), ext)
  {
    if Hostname !in record.attrs {
      record.attrs := record.attrs[Hostname := Str(ext.hostName)];
    }
    if Datetime !in record.attrs {
      if Created !in record.attrs {
        return Some(AttributeError(Created));
      }
      record.attrs := record.attrs[Datetime := ext.fromTimestamp(record.attrs[Created])];
    }
    if ExcInfo !in record.attrs {
      return Some(AttributeError(ExcInfo));
    }
    if Truthy(record.attrs[ExcInfo]) {
      record.attrs := record.attrs[Exception := Str(ext.formatException(record.attrs[ExcInfo]))];
    } else {
      record.attrs := record.attrs[Exception := NoneValue];
    }
    return None;
  }

  /** The `asctime` rewrite: `len()` of a missing or length-less `asctime` raises. */
  method RewriteRecordAsctime(record: LogRecord) returns (raised: Option<PyError>)
    modifies record
    ensures Step(record.attrs, raised) == FixAsctime(old(record.attrs))
  {
    if Asctime !in record.attrs {
      return Some(AttributeError(Asctime));
    }
    match record.attrs[Asctime] {
      case Str(s) =>
        if HasMillisComma(s) {
          record.attrs := record.attrs[Asctime := Str(RewriteAsctime(s))];
        }
      case Unicode(s) =>
        if HasMillisComma(s) {
          record.attrs := record.attrs[Asctime := Unicode(RewriteAsctime(s))];
        }
      case _ =>
        return Some(TypeError);
    }
    return None;
  }

  /** The loop of `format` that turns each `str` among the attributes `names` into `unicode`. */
  method CoerceRecord(record: LogRecord, names: seq<Attr>) returns (raised: Option<PyError>)
    modifies record
    ensures Step(record.attrs, raised) == Coerce(old(record.attrs), names)
  {
    ghost var start := record.attrs;
    var i := 0;
    while i < |names|
      invariant 0 <= i <= |names|
      invariant Coerce(record.attrs, names[i..]) == Coerce(start, names)
    {
      var k := names[i];
      assert names[i..][1..] == names[i + 1..];
      if k !in record.attrs {
        return Some(AttributeError(k));
      }
      var v := record.attrs[k];
      if v.Str? {
        if !IsAscii(v.bytes) {
          return Some(UnicodeDecodeError);
        }
        record.attrs := record.attrs[k := Unicode(v.bytes)];
      } else {
        assert record.attrs[k := Retag(v)] == record.attrs;
      }
      i := i + 1;
    }
    return None;
  }

  /** `logging.DEBUG`, the default level of `get_logger`. */
  const DEBUG: int := 10

  /** The `stlog` logger of the `logging` registry. */
  class Logger {
    var level: int
    var handlers: seq<DatabaseHandler>

    constructor()
      ensures level == 0 && handlers == []
    {
      level := 0;
      handlers := [];
    }

    method SetLevel(level: int)
      modifies this
      ensures this.level == level && handlers == old(handlers)
    {
      this.level := level;
    }

    /** `Logger.addHandler` appends a handler that is not already attached. */
    method AddHandler(h: DatabaseHandler)
      modifies this
      ensures level == old(level)
      ensures handlers == if h in old(handlers) then old(handlers) else old(handlers) + [h]
    {
      if h !in handlers {
        handlers := handlers + [h];
      }
    }
  }

  /**
    `get_logger`: sets the level of the shared logger and attaches a new
    `DatabaseHandler` whose formatter, shared with its fallback, uses the
    module's format. Every call attaches one more handler.
   */
  method GetLogger(logger: Logger, level: int, session: Session, env: map<string, string>) returns (r: Logger)
    modifies logger
    ensures r == logger && logger.level == level
    ensures |logger.handlers| == |old(logger.handlers)| + 1
    ensures logger.handlers[..|old(logger.handlers)|] == old(logger.handlers)
    ensures var h := logger.handlers[|logger.handlers| - 1];
      && fresh(h) && fresh(h.fallback) && h.session == session
      && h.formatter != null && h.formatter == h.fallback.formatter
      && h.formatter.fmt == (if LogFormat(env) == "" then DefaultFormatterFormat else LogFormat(env))
      && h.fallback.lines == []
  {
    logger.SetLevel(level);
    var h := new DatabaseHandler(session);
    var f := new Formatter(LogFormat(env));
    h.SetFormatter(f);
    logger.AddHandler(h);
    r := logger;
  }

  /** Two calls of `get_logger` leave two more handlers on the logger, distinct from each other. */
  method GetLoggerTwice(logger: Logger, session: Session, env: map<string, string>)
    modifies logger
    ensures |logger.handlers| == |old(logger.handlers)| + 2
    ensures logger.handlers[|logger.handlers| - 1] != logger.handlers[|logger.handlers| - 2]
  {
    var _ := GetLogger(logger, DEBUG, session, env);
    var _ := GetLogger(logger, DEBUG, session, env);
  }
}
