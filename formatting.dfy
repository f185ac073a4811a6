/**
  What `DatabaseHandler.format` does to a log record's attributes, stated as
  functions on the attribute dictionary. Each step that can raise returns a
  `Step`: the attributes as they stand when it stops, and the exception it
  raised, if any (`format` assigns attributes one by one, so an exception
  leaves the earlier assignments in place).
 */
module Formatting {
  import opened Wrappers
  import opened PyValues

  /**
    The name of a record attribute: one constructor per attribute this module
    reads or writes, and `Other` for every other attribute a record may carry
    (`msg`, `args`, the keys of `extra=`).
   */
  datatype Attr =
    | Datetime | Asctime | Created | Hostname | Filename | FuncName
    | Levelname | Levelno | Lineno | Module | Msecs | Message | Name
    | Pathname | Process | ProcessName | RelativeCreated | Thread
    | ThreadName | Exception | ExcInfo | ExcText
    | Other(name: string)

  /** The exceptions `format` and the building of the row can raise. */
  datatype PyError =
    | AttributeError(attr: Attr)  // reading a missing attribute
    | TypeError                   // `len()` of a value that has no length
    | UnicodeDecodeError          // `unicode()` of a byte string that is not ASCII

  /** A record's `__dict__`: `hasattr` is membership, `getattr` is lookup. */
  type Attrs = map<Attr, Value>

  datatype Step = Step(attrs: Attrs, raised: Option<PyError>)

  /**
    What the handler obtains from calls it does not define: `socket.gethostname()`,
    `datetime.datetime.fromtimestamp`, the default formatter's
    `formatException`, and the two results of the standard `Formatter.format`
    that the handler reads back (`formatTime` and `getMessage`).
   */
  datatype Externals = Externals(
    hostName: string,
    fromTimestamp: Value -> Value,
    formatException: Value -> string,
    timeText: string,
    messageText: Value)

  /** Key `k` is absent from both maps or bound to the same value in both. */
  predicate Agree(a: Attrs, b: Attrs, k: Attr) {
    (k in a <==> k in b) && (k in a ==> a[k] == b[k])
  }

  // ---------------------------------------------------------------------------
  // Formatter strings

  /** `DEFAULT_LOG_FMT` of the module. */
  const DefaultLogFormat: string :=
    "%(levelname)s - " +
    "%(hostname)s - " +
    "%(asctime)s " + "%(module)s.%(funcName)s (%(filename)s) - " +
    "%(message)s"

  /** The format of `logging._defaultFormatter`, used by a handler with no formatter. */
  const DefaultFormatterFormat: string := "%(message)s"

  const AsctimeDirective: string := "%(asctime)"

  /** `LOG_FMT`: the `STLOG_FMT` environment variable, else the default. */
  function LogFormat(env: map<string, string>): (fmt: string)
    ensures "STLOG_FMT" !in env ==> fmt == DefaultLogFormat
    ensures "STLOG_FMT" in env ==> fmt == env["STLOG_FMT"]
  {
    if "STLOG_FMT" in env then env["STLOG_FMT"] else DefaultLogFormat
  }

  /** `pat` occurs somewhere in `s` (`s.find(pat) >= 0`). */
  predicate Contains(s: string, pat: string)
    decreases |s|
  {
    IsPrefix(pat, s) || (s != [] && Contains(s[1..], pat))
  }

  lemma {:induction false} ContainsAt(s: string, pat: string, i: nat)
    requires i + |pat| <= |s| && s[i..i + |pat|] == pat
    ensures Contains(s, pat)
    decreases i
  {
    if i > 0 {
      assert s[1..][i - 1..i - 1 + |pat|] == s[i..i + |pat|];
      ContainsAt(s[1..], pat, i - 1);
    } else {
      assert s[..|pat|] == s[0..|pat|];
    }
  }

  /** Python 2.7 `Formatter.usesTime`: the format mentions `%(asctime)`. */
  predicate UsesTime(fmt: string) {
    Contains(fmt, AsctimeDirective)
  }

  /** The module's default format renders `asctime`, so `format` sets it on every record. */
  lemma DefaultLogFormatUsesTime()
    ensures UsesTime(DefaultLogFormat)
    ensures !UsesTime(DefaultFormatterFormat)
  {
    var head := "%(levelname)s - " + "%(hostname)s - ";
    var time := "%(asctime)s ";
    var rest := "%(module)s.%(funcName)s (%(filename)s) - " + "%(message)s";
    assert DefaultLogFormat == head + time + rest;
    assert time[..|AsctimeDirective|] == AsctimeDirective;
    assert DefaultLogFormat[|head|..|head| + |AsctimeDirective|] == time[..|AsctimeDirective|];
    ContainsAt(DefaultLogFormat, AsctimeDirective, |head|);
    var m := DefaultFormatterFormat;
    assert m[..|AsctimeDirective|] != AsctimeDirective by {
      assert m[2] != AsctimeDirective[2];
    }
    assert m[1..][..|AsctimeDirective|] != AsctimeDirective by {
      assert m[1] != AsctimeDirective[0];
    }
    assert !Contains(m[2..], AsctimeDirective) by {
      assert |m[2..]| < |AsctimeDirective|;
      NotContainsShort(m[2..], AsctimeDirective);
    }
    assert m[1..][1..] == m[2..];
  }

  lemma {:induction false} NotContainsShort(s: string, pat: string)
    requires |s| < |pat|
    ensures !Contains(s, pat)
    decreases |s|
  {
    if s != [] {
      NotContainsShort(s[1..], pat);
    }
  }

  // ---------------------------------------------------------------------------
  // Step 1: enrichment (stlog/__init__.py:188-196)

  /**
    Sets `hostname` when absent, sets `datetime` from `created` when absent,
    and always reassigns `exception`: the formatted `exc_info` when that is
    true, else `None`. Reading a missing `created` or `exc_info` raises.
   */
  function Enrich(attrs: Attrs, ext: Externals): (r: Step)
    ensures r.raised == None <==> (Datetime in attrs || Created in attrs) && ExcInfo in attrs
    ensures r.raised != None ==> r.raised == Some(AttributeError(if Datetime in attrs || Created in attrs then ExcInfo else Created))
    ensures Hostname in r.attrs
    ensures Hostname in attrs ==> r.attrs[Hostname] == attrs[Hostname]
    ensures Hostname !in attrs ==> r.attrs[Hostname] == Str(ext.hostName)
    ensures r.raised == None ==> Datetime in r.attrs && Exception in r.attrs
    ensures r.raised == None && Datetime in attrs ==> r.attrs[Datetime] == attrs[Datetime]
    ensures r.raised == None && Datetime !in attrs ==> r.attrs[Datetime] == ext.fromTimestamp(attrs[Created])
    ensures r.raised == None && Truthy(attrs[ExcInfo]) ==> r.attrs[Exception] == Str(ext.formatException(attrs[ExcInfo]))
    ensures r.raised == None && !Truthy(attrs[ExcInfo]) ==> r.attrs[Exception] == NoneValue
    ensures forall k {:trigger Agree(attrs, r.attrs, k)} | k != Hostname && k != Datetime && k != Exception :: Agree(attrs, r.attrs, k)
  {
    var a1 := if Hostname in attrs then attrs else attrs[Hostname := Str(ext.hostName)];
    if Datetime !in a1 && Created !in a1 then Step(a1, Some(AttributeError(Created)))
    else
      var a2 := if Datetime in a1 then a1 else a1[Datetime := ext.fromTimestamp(a1[Created])];
      if ExcInfo !in a2 then Step(a2, Some(AttributeError(ExcInfo)))
      else
        var exc := if Truthy(a2[ExcInfo]) then Str(ext.formatException(a2[ExcInfo])) else NoneValue;
        Step(a2[Exception := exc], None)
  }

  // ---------------------------------------------------------------------------
  // Step 2: the standard `Formatter.format` (stlog/__init__.py:199)

  /**
    The library formatter caches the traceback in `exc_text` when `exc_info`
    is true and `exc_text` is not. (A `LogRecord` always has both attributes;
    a missing one reads as false here.)
   */
  predicate CachesExcText(attrs: Attrs) {
    ExcInfo in attrs && Truthy(attrs[ExcInfo]) && !(ExcText in attrs && Truthy(attrs[ExcText]))
  }

  /**
    The three attributes the library's `Formatter.format` leaves on the record:
    `message` always, `asctime` only when the format uses time, and the
    cached traceback `exc_text`.
   */
  function Render(attrs: Attrs, usesTime: bool, ext: Externals): (r: Attrs)
    ensures Message in r && r[Message] == ext.messageText
    ensures usesTime ==> Asctime in r && r[Asctime] == Str(ext.timeText)
    ensures CachesExcText(attrs) ==> ExcText in r && r[ExcText] == Str(ext.formatException(attrs[ExcInfo]))
    ensures forall k {:trigger Agree(attrs, r, k)} | k != Message && (usesTime ==> k != Asctime) && (CachesExcText(attrs) ==> k != ExcText) :: Agree(attrs, r, k)
  {
    var a := attrs[Message := ext.messageText];
    var b := if usesTime then a[Asctime := Str(ext.timeText)] else a;
    if CachesExcText(attrs) then b[ExcText := Str(ext.formatException(attrs[ExcInfo]))] else b
  }

  // ---------------------------------------------------------------------------
  // Step 3: the `asctime` rewrite (stlog/__init__.py:202-203)

  predicate HasMillisComma(s: string) {
    |s| >= 4 && s[|s| - 4] == ','
  }

  /**
    When the fourth-from-last character is a comma it becomes a period; every
    other character, and every other string, is left as it is.
   */
  function RewriteAsctime(s: string): (r: string)
    ensures |r| == |s|
    ensures forall i | 0 <= i < |s| && i != |s| - 4 :: r[i] == s[i]
    ensures HasMillisComma(s) ==> r[|s| - 4] == '.'
    ensures !HasMillisComma(s) ==> r == s
  {
    if HasMillisComma(s) then s[..|s| - 4] + "." + s[|s| - 3..] else s
  }

  /** Rewriting twice is rewriting once. */
  lemma RewriteAsctimeIdempotent(s: string)
    ensures RewriteAsctime(RewriteAsctime(s)) == RewriteAsctime(s)
  {
  }

  /**
    `len(record.asctime)`: raises when `asctime` is missing or has no length;
    a `str` stays `str` and a `unicode` stays `unicode` through the rewrite.
   */
  function FixAsctime(attrs: Attrs): (r: Step)
    ensures r.raised == None <==> Asctime in attrs && (attrs[Asctime].Str? || attrs[Asctime].Unicode?)
    ensures Asctime !in attrs ==> r.raised == Some(AttributeError(Asctime))
    ensures Asctime in r.attrs <==> Asctime in attrs
    ensures forall k {:trigger Agree(attrs, r.attrs, k)} | k != Asctime :: Agree(attrs, r.attrs, k)
    ensures r.raised == None && attrs[Asctime].Str? ==> r.attrs[Asctime] == Str(RewriteAsctime(attrs[Asctime].bytes))
    ensures r.raised == None && attrs[Asctime].Unicode? ==> r.attrs[Asctime] == Unicode(RewriteAsctime(attrs[Asctime].text))
  {
    if Asctime !in attrs then Step(attrs, Some(AttributeError(Asctime)))
    else match attrs[Asctime]
      case Str(s) => Step(attrs[Asctime := Str(RewriteAsctime(s))], None)
      case Unicode(s) => Step(attrs[Asctime := Unicode(RewriteAsctime(s))], None)
      case _ => Step(attrs, Some(TypeError))
  }

  // ---------------------------------------------------------------------------
  // Step 4: text coercion (stlog/__init__.py:206-221)

  /** The thirteen attributes the loop visits, in its order. */
  const CoercedNames: seq<Attr> := [
    Asctime, Hostname, Filename, FuncName, Levelname, Levelno,
    Module, Message, Name, Pathname, ProcessName, ThreadName,
    Exception]

  /** `unicode(value)` applied to a `str`; every other value is left alone. */
  function Retag(v: Value): (r: Value)
    ensures v.Str? ==> r == Unicode(v.bytes)
    ensures !v.Str? ==> r == v
    ensures !r.Str?
  {
    if v.Str? then Unicode(v.bytes) else v
  }

  /** Key `k` is in both maps or in neither, and its value is kept or re-tagged. */
  predicate Kept(a: Attrs, b: Attrs, k: Attr) {
    (k in a <==> k in b) && (k in a ==> b[k] == a[k] || b[k] == Retag(a[k]))
  }

  /** Key `k` is in both maps and its value re-tagged. */
  predicate Retagged(a: Attrs, b: Attrs, k: Attr) {
    k in a && k in b && b[k] == Retag(a[k])
  }

  /** `unicode()` accepts the value: it is not a `str`, or it is an ASCII one. */
  predicate TextOk(v: Value) {
    v.Str? ==> IsAscii(v.bytes)
  }

  /** The coercion loop raises nowhere on `attrs`: every name is present and every `str` among them is ASCII. */
  predicate Coercible(attrs: Attrs, names: seq<Attr>) {
    forall k | k in names :: k in attrs && TextOk(attrs[k])
  }

  /**
    The loop over `names`: a missing attribute raises `AttributeError`, a
    non-ASCII `str` raises `UnicodeDecodeError`, and each `str` before the
    first failure becomes `unicode`.
   */
  function Coerce(attrs: Attrs, names: seq<Attr>): (r: Step)
    ensures forall k {:trigger Kept(attrs, r.attrs, k)} :: Kept(attrs, r.attrs, k)
    ensures forall k {:trigger Agree(attrs, r.attrs, k)} | k !in names :: Agree(attrs, r.attrs, k)
    ensures r.raised == None <==> Coercible(attrs, names)
    ensures r.raised == None ==> forall k {:trigger Retagged(attrs, r.attrs, k)} | k in names :: Retagged(attrs, r.attrs, k)
    decreases |names|
  {
    if names == [] then Step(attrs, None)
    else
      var k := names[0];
      if k !in attrs then Step(attrs, Some(AttributeError(k)))
      else if attrs[k].Str? && !IsAscii(attrs[k].bytes) then Step(attrs, Some(UnicodeDecodeError))
      else
        var next := attrs[k := Retag(attrs[k])];
        var r := Coerce(next, names[1..]);
        CoerceStep(attrs, names, next, r);
        r
  }

  /** One turn of the loop: what holds of the rest of the names holds of them all. */
  lemma CoerceStep(attrs: Attrs, names: seq<Attr>, next: Attrs, r: Step)
    requires names != [] && names[0] in attrs && TextOk(attrs[names[0]])
    requires next == attrs[names[0] := Retag(attrs[names[0]])]
    requires forall k {:trigger Kept(next, r.attrs, k)} :: Kept(next, r.attrs, k)
    requires forall k {:trigger Agree(next, r.attrs, k)} | k !in names[1..] :: Agree(next, r.attrs, k)
    requires r.raised == None <==> Coercible(next, names[1..])
    requires r.raised == None ==> forall k {:trigger Retagged(next, r.attrs, k)} | k in names[1..] :: Retagged(next, r.attrs, k)
    ensures forall k {:trigger Kept(attrs, r.attrs, k)} :: Kept(attrs, r.attrs, k)
    ensures forall k {:trigger Agree(attrs, r.attrs, k)} | k !in names :: Agree(attrs, r.attrs, k)
    ensures r.raised == None <==> Coercible(attrs, names)
    ensures r.raised == None ==> forall k {:trigger Retagged(attrs, r.attrs, k)} | k in names :: Retagged(attrs, r.attrs, k)
  {
    var h := names[0];
    forall k
      ensures Kept(attrs, r.attrs, k)
    {
      assert Kept(next, r.attrs, k);
    }
    forall k | k !in names
      ensures Agree(attrs, r.attrs, k)
    {
      assert k !in names[1..];
      assert Agree(next, r.attrs, k);
    }
    assert Coercible(next, names[1..]) <==> Coercible(attrs, names) by {
      if Coercible(next, names[1..]) {
        forall k | k in names
          ensures k in attrs && TextOk(attrs[k])
        {
          if k != h {
            assert k in names[1..];
          }
        }
      }
      if Coercible(attrs, names) {
        forall k | k in names[1..]
          ensures k in next && TextOk(next[k])
        {
          assert k in names;
        }
      }
    }
    if r.raised == None {
      forall k | k in names
        ensures Retagged(attrs, r.attrs, k)
      {
        if k in names[1..] {
          assert Retagged(next, r.attrs, k);
        } else {
          assert Agree(next, r.attrs, k);
        }
      }
    }
  }

  // ---------------------------------------------------------------------------
  // The whole of `format` (stlog/__init__.py:181-222)

  function FormatSpec(attrs: Attrs, usesTime: bool, ext: Externals): (r: Step)
  {
    var e := Enrich(attrs, ext);
    if e.raised.Some? then e
    else
      var f := FixAsctime(Render(e.attrs, usesTime, ext));
      if f.raised.Some? then f
      else Coerce(f.attrs, CoercedNames)
  }

  /** The attributes `format` hands to the coercion loop. */
  function Prepared(attrs: Attrs, usesTime: bool, ext: Externals): Attrs {
    FixAsctime(Render(Enrich(attrs, ext).attrs, usesTime, ext)).attrs
  }

  /** `format` reaches the coercion loop. */
  predicate Prepares(attrs: Attrs, usesTime: bool, ext: Externals) {
    Enrich(attrs, ext).raised == None && FixAsctime(Render(Enrich(attrs, ext).attrs, usesTime, ext)).raised == None
  }

  /** Unfolds `FormatSpec` into its stages, for the lemmas that reason about each stage on its own. */
  lemma FormatSpecStages(attrs: Attrs, usesTime: bool, ext: Externals)
    ensures Prepares(attrs, usesTime, ext) ==> FormatSpec(attrs, usesTime, ext) == Coerce(Prepared(attrs, usesTime, ext), CoercedNames)
    ensures FormatSpec(attrs, usesTime, ext).raised == None ==> Prepares(attrs, usesTime, ext)
  {
  }

  /** The nine attributes every `logging.LogRecord` carries from its constructor. */
  const RecordTextNames: seq<Attr> := [
    Filename, FuncName, Levelname, Levelno, Module, Name,
    Pathname, ProcessName, ThreadName]

  // Facts about the constant name lists, each proved on its own.

  predicate IsRecordText(k: Attr) {
    k.Filename? || k.FuncName? || k.Levelname? || k.Levelno? || k.Module? || k.Name? || k.Pathname? || k.ProcessName? || k.ThreadName?
  }

  lemma CoercedNamesAre(k: Attr)
    ensures k in CoercedNames <==> k.Asctime? || k.Hostname? || k.Message? || k.Exception? || IsRecordText(k)
  {
  }

  lemma RecordTextNamesAre(k: Attr)
    ensures k in RecordTextNames <==> IsRecordText(k)
  {
  }

  predicate Present(attrs: Attrs, k: Attr) {
    k in attrs && TextOk(attrs[k])
  }

  /** `asctime` holds text before the rewrite when the formatter does not render time. */
  predicate AsctimeReady(attrs: Attrs, usesTime: bool) {
    !usesTime ==> Asctime in attrs && (attrs[Asctime].Str? || attrs[Asctime].Unicode?)
  }

  /** The text `unicode()` meets in `asctime` after the rewrite, before rewriting. */
  function AsctimeSource(attrs: Attrs, usesTime: bool, ext: Externals): string
    requires AsctimeReady(attrs, usesTime)
  {
    if usesTime then ext.timeText
    else if attrs[Asctime].Str? then attrs[Asctime].bytes else attrs[Asctime].text
  }

  /** The record has what the first two steps read: `created` (when `datetime` is absent), `exc_info`, and text in `asctime` when the format does not set it. */
  predicate Readable(attrs: Attrs, usesTime: bool) {
    (Datetime in attrs || Created in attrs) && ExcInfo in attrs && AsctimeReady(attrs, usesTime)
  }

  /** Every text the four assignments and the rewrite produce is one `unicode()` accepts. */
  predicate SetTextsOk(attrs: Attrs, usesTime: bool, ext: Externals)
    requires Readable(attrs, usesTime)
  {
    && (usesTime ==> IsAscii(ext.timeText))
    && (!usesTime ==> TextOk(attrs[Asctime]))
    && TextOk(if Hostname in attrs then attrs[Hostname] else Str(ext.hostName))
    && TextOk(ext.messageText)
    && (Truthy(attrs[ExcInfo]) ==> IsAscii(ext.formatException(attrs[ExcInfo])))
  }

  /** The nine attributes every `LogRecord` carries are present and accepted by `unicode()`. */
  predicate RecordTextsOk(attrs: Attrs) {
    forall k | k in RecordTextNames :: Present(attrs, k)
  }

  /**
    Exactly the records on which `format` raises nothing: `created` (when
    `datetime` is absent) and `exc_info` exist, `asctime` exists as text
    afterwards, and every text the coercion loop meets is ASCII.
   */
  predicate Formattable(attrs: Attrs, usesTime: bool, ext: Externals) {
    Readable(attrs, usesTime) && SetTextsOk(attrs, usesTime, ext) && RecordTextsOk(attrs)
  }

  lemma RewriteAsctimeAscii(s: string)
    ensures IsAscii(RewriteAsctime(s)) <==> IsAscii(s)
  {
    var r := RewriteAsctime(s);
    if HasMillisComma(s) {
      assert forall i | 0 <= i < |s| :: r[i] == s[i] || (i == |s| - 4 && r[i] == '.' && s[i] == ',');
    }
  }

  /** `format` passes the first two steps exactly when the record has what they read. */
  lemma PreparesIff(attrs: Attrs, usesTime: bool, ext: Externals)
    ensures Prepares(attrs, usesTime, ext) <==> Readable(attrs, usesTime)
  {
    var e := Enrich(attrs, ext);
    if e.raised == None && !usesTime {
      assert Agree(e.attrs, Render(e.attrs, usesTime, ext), Asctime) && Agree(attrs, e.attrs, Asctime);
    }
  }

  /**
    The attributes `format` has built when it reaches the coercion loop: the
    four it set, the rewritten `asctime`, and every other attribute as the
    record had it.
   */
  lemma PreparedValues(attrs: Attrs, usesTime: bool, ext: Externals)
    requires Prepares(attrs, usesTime, ext)
    ensures Readable(attrs, usesTime)
    ensures var a := Prepared(attrs, usesTime, ext);
      && Hostname in a && a[Hostname] == (if Hostname in attrs then attrs[Hostname] else Str(ext.hostName))
      && Datetime in a && a[Datetime] == (if Datetime in attrs then attrs[Datetime] else ext.fromTimestamp(attrs[Created]))
      && Exception in a && a[Exception] == (if Truthy(attrs[ExcInfo]) then Str(ext.formatException(attrs[ExcInfo])) else NoneValue)
      && Message in a && a[Message] == ext.messageText
      && Asctime in a && RewriteAsctime(AsctimeSource(attrs, usesTime, ext)) == AsctimeText(a[Asctime])
      && (usesTime || attrs[Asctime].Str? ==> a[Asctime].Str?)
      && (!usesTime && attrs[Asctime].Unicode? ==> a[Asctime].Unicode?)
  {
    PreparesIff(attrs, usesTime, ext);
    var e := Enrich(attrs, ext);
    var rd := Render(e.attrs, usesTime, ext);
    var a := FixAsctime(rd).attrs;
    assert Agree(rd, a, Hostname) && Agree(rd, a, Datetime) && Agree(rd, a, Exception) && Agree(rd, a, Message);
    assert Agree(e.attrs, rd, Hostname) && Agree(e.attrs, rd, Datetime) && Agree(e.attrs, rd, Exception);
    if !usesTime {
      assert Agree(e.attrs, rd, Asctime) && Agree(attrs, e.attrs, Asctime);
    }
  }

  /** Every attribute other than the six `format` sets reaches the loop as the record had it. */
  lemma PreparedKeeps(attrs: Attrs, usesTime: bool, ext: Externals, k: Attr)
    requires Prepares(attrs, usesTime, ext)
    requires k != Hostname && k != Datetime && k != Exception && k != Message && k != Asctime && k != ExcText
    ensures Agree(attrs, Prepared(attrs, usesTime, ext), k)
  {
    var e := Enrich(attrs, ext);
    var rd := Render(e.attrs, usesTime, ext);
    assert Agree(attrs, e.attrs, k) && Agree(e.attrs, rd, k) && Agree(rd, FixAsctime(rd).attrs, k);
  }

  /** The traceback the library formatter caches reaches the loop; without one `exc_text` is as the record had it. */
  lemma PreparedExcText(attrs: Attrs, usesTime: bool, ext: Externals)
    requires Prepares(attrs, usesTime, ext)
    ensures var a := Prepared(attrs, usesTime, ext);
      && (CachesExcText(attrs) ==> ExcText in a && a[ExcText] == Str(ext.formatException(attrs[ExcInfo])))
      && (!CachesExcText(attrs) ==> Agree(attrs, a, ExcText))
  {
    var e := Enrich(attrs, ext);
    var rd := Render(e.attrs, usesTime, ext);
    assert Agree(attrs, e.attrs, ExcText) && Agree(attrs, e.attrs, ExcInfo);
    assert CachesExcText(e.attrs) == CachesExcText(attrs);
    assert Agree(rd, FixAsctime(rd).attrs, ExcText);
    if !CachesExcText(attrs) {
      assert Agree(e.attrs, rd, ExcText);
    }
  }

  /** The text of a string value. */
  function AsctimeText(v: Value): string {
    match v
    case Str(s) => s
    case Unicode(s) => s
    case _ => []
  }

  /** The five attributes `format` sets are text the loop accepts exactly when `SetTextsOk` says so. */
  lemma PreparedSetTextOk(attrs: Attrs, usesTime: bool, ext: Externals)
    requires Prepares(attrs, usesTime, ext)
    ensures Readable(attrs, usesTime)
    ensures var a := Prepared(attrs, usesTime, ext);
      Present(a, Hostname) && Present(a, Message) && Present(a, Exception) && Present(a, Asctime)
      <==> SetTextsOk(attrs, usesTime, ext)
  {
    PreparedValues(attrs, usesTime, ext);
    RewriteAsctimeAscii(AsctimeSource(attrs, usesTime, ext));
  }

  lemma CoercibleFromTexts(attrs: Attrs, usesTime: bool, ext: Externals)
    requires Prepares(attrs, usesTime, ext)
    requires Readable(attrs, usesTime) && SetTextsOk(attrs, usesTime, ext) && RecordTextsOk(attrs)
    ensures Coercible(Prepared(attrs, usesTime, ext), CoercedNames)
  {
    var a := Prepared(attrs, usesTime, ext);
    PreparedSetTextOk(attrs, usesTime, ext);
    forall k | k in CoercedNames
      ensures k in a && TextOk(a[k])
    {
      CoercedNamesAre(k);
      if IsRecordText(k) {
        RecordTextNamesAre(k);
        PreparedKeeps(attrs, usesTime, ext, k);
        assert Present(attrs, k);
      } else {
        assert Present(a, k);
      }
    }
  }

  lemma TextsFromCoercible(attrs: Attrs, usesTime: bool, ext: Externals)
    requires Prepares(attrs, usesTime, ext)
    requires Coercible(Prepared(attrs, usesTime, ext), CoercedNames)
    ensures Readable(attrs, usesTime) && SetTextsOk(attrs, usesTime, ext) && RecordTextsOk(attrs)
  {
    var a := Prepared(attrs, usesTime, ext);
    PreparedSetTextOk(attrs, usesTime, ext);
    assert Present(a, Hostname) && Present(a, Message) && Present(a, Exception) && Present(a, Asctime) by {
      CoercedNamesAre(Hostname);
      CoercedNamesAre(Message);
      CoercedNamesAre(Exception);
      CoercedNamesAre(Asctime);
    }
    RecordTextsFromCoercible(attrs, usesTime, ext);
  }

  lemma RecordTextsFromCoercible(attrs: Attrs, usesTime: bool, ext: Externals)
    requires Prepares(attrs, usesTime, ext)
    requires Coercible(Prepared(attrs, usesTime, ext), CoercedNames)
    ensures RecordTextsOk(attrs)
  {
    var a := Prepared(attrs, usesTime, ext);
    forall k | k in RecordTextNames
      ensures Present(attrs, k)
    {
      RecordTextNamesAre(k);
      CoercedNamesAre(k);
      PreparedKeeps(attrs, usesTime, ext, k);
      assert Present(a, k);
    }
  }

  /** A successful `format` re-tags what it hands to the loop under the thirteen names and keeps the rest. */
  lemma FormatAfterPrepared(attrs: Attrs, usesTime: bool, ext: Externals, k: Attr)
    requires FormatSpec(attrs, usesTime, ext).raised == None
    ensures Prepares(attrs, usesTime, ext)
    ensures var a := Prepared(attrs, usesTime, ext); var r := FormatSpec(attrs, usesTime, ext).attrs;
      && (k.Asctime? || k.Hostname? || k.Message? || k.Exception? || IsRecordText(k) ==> Retagged(a, r, k))
      && (k.Datetime? || k.ExcInfo? ==> Agree(a, r, k))
  {
    FormatSpecStages(attrs, usesTime, ext);
    CoercedNamesAre(k);
  }

  /** `format` raises nothing exactly on the records `Formattable` describes. */
  lemma FormatSucceedsIff(attrs: Attrs, usesTime: bool, ext: Externals)
    ensures FormatSpec(attrs, usesTime, ext).raised == None <==> Formattable(attrs, usesTime, ext)
  {
    FormatSpecStages(attrs, usesTime, ext);
    PreparesIff(attrs, usesTime, ext);
    if Prepares(attrs, usesTime, ext) {
      if Formattable(attrs, usesTime, ext) {
        CoercibleFromTexts(attrs, usesTime, ext);
      }
      if Coercible(Prepared(attrs, usesTime, ext), CoercedNames) {
        TextsFromCoercible(attrs, usesTime, ext);
      }
    }
  }

  /**
    After a successful `format`, `hostname` and `datetime` are present: a value
    that was there is kept (`hostname` re-tagged as text), an absent one is
    filled in. `exception` is always reassigned from `exc_info`.
   */
  lemma FormatFillsHostTimeException(attrs: Attrs, usesTime: bool, ext: Externals)
    requires FormatSpec(attrs, usesTime, ext).raised == None
    ensures Created in attrs || Datetime in attrs
    ensures ExcInfo in attrs
    ensures var r := FormatSpec(attrs, usesTime, ext).attrs;
      && Hostname in r && Datetime in r && Exception in r
      && r[Hostname] == Retag(if Hostname in attrs then attrs[Hostname] else Str(ext.hostName))
      && r[Datetime] == (if Datetime in attrs then attrs[Datetime] else ext.fromTimestamp(attrs[Created]))
      && r[Exception] == (if Truthy(attrs[ExcInfo]) then Unicode(ext.formatException(attrs[ExcInfo])) else NoneValue)
  {
    FormatAfterPrepared(attrs, usesTime, ext, Hostname);
    FormatAfterPrepared(attrs, usesTime, ext, Datetime);
    FormatAfterPrepared(attrs, usesTime, ext, Exception);
    PreparedValues(attrs, usesTime, ext);
  }

  /**
    After a successful `format`, `message` is the rendered message and
    `asctime` the rewritten timestamp (the rendered one when the format uses
    time, the record's own otherwise), both as `unicode`.
   */
  lemma FormatMessageAndAsctime(attrs: Attrs, usesTime: bool, ext: Externals)
    requires FormatSpec(attrs, usesTime, ext).raised == None
    ensures AsctimeReady(attrs, usesTime)
    ensures var r := FormatSpec(attrs, usesTime, ext).attrs;
      && Message in r && r[Message] == Retag(ext.messageText)
      && Asctime in r && r[Asctime] == Unicode(RewriteAsctime(AsctimeSource(attrs, usesTime, ext)))
  {
    FormatAfterPrepared(attrs, usesTime, ext, Message);
    FormatAfterPrepared(attrs, usesTime, ext, Asctime);
    PreparedValues(attrs, usesTime, ext);
  }

  /**
    `format` changes no attribute outside the thirteen coerced names,
    `datetime` and `exc_text`, whether or not it raises.
   */
  lemma FormatChangesOnlyListed(attrs: Attrs, usesTime: bool, ext: Externals, k: Attr)
    requires k !in CoercedNames && k != Datetime && k != ExcText
    ensures Agree(attrs, FormatSpec(attrs, usesTime, ext).attrs, k)
  {
    var e := Enrich(attrs, ext);
    CoercedNamesAre(k);
    if e.raised != None {
      return;
    }
    var rd := Render(e.attrs, usesTime, ext);
    var f := FixAsctime(rd);
    assert Agree(attrs, e.attrs, k) && Agree(e.attrs, rd, k) && Agree(rd, f.attrs, k);
    if f.raised == None {
      assert Agree(f.attrs, Coerce(f.attrs, CoercedNames).attrs, k);
    }
  }

  /**
    Once enrichment has read `exc_info`, the library formatter caches the
    traceback in `exc_text` unless `exc_text` is already true, and the rest of
    `format` leaves it there; in every other case `exc_text` is untouched.
   */
  lemma FormatCachesExcText(attrs: Attrs, usesTime: bool, ext: Externals)
    ensures var r := FormatSpec(attrs, usesTime, ext).attrs;
      var read := (Datetime in attrs || Created in attrs) && ExcInfo in attrs;
      && (read && CachesExcText(attrs) ==> ExcText in r && r[ExcText] == Str(ext.formatException(attrs[ExcInfo])))
      && (!(read && CachesExcText(attrs)) ==> Agree(attrs, r, ExcText))
  {
    var e := Enrich(attrs, ext);
    CoercedNamesAre(ExcText);
    assert Agree(attrs, e.attrs, ExcText) && Agree(attrs, e.attrs, ExcInfo);
    if e.raised != None {
      return;
    }
    var rd := Render(e.attrs, usesTime, ext);
    var f := FixAsctime(rd);
    assert CachesExcText(e.attrs) == CachesExcText(attrs);
    assert Agree(rd, f.attrs, ExcText);
    if !CachesExcText(attrs) {
      assert Agree(e.attrs, rd, ExcText);
    }
    if f.raised == None {
      assert Agree(f.attrs, Coerce(f.attrs, CoercedNames).attrs, ExcText);
    }
  }

  /**
    Formatting a formatted record again with the library formatter leaves
    `exc_text` as the first `format` cached it.
   */
  lemma RenderKeepsCachedExcText(attrs: Attrs, usesTime: bool, ext: Externals)
    requires FormatSpec(attrs, usesTime, ext).raised == None
    ensures var r := FormatSpec(attrs, usesTime, ext).attrs;
      Agree(r, Render(r, usesTime, ext), ExcText)
  {
    var r := FormatSpec(attrs, usesTime, ext).attrs;
    FormatCachesExcText(attrs, usesTime, ext);
    CoercedNamesAre(ExcInfo);
    FormatChangesOnlyListed(attrs, usesTime, ext, ExcInfo);
    FormatFillsHostTimeException(attrs, usesTime, ext);
  }

  /**
    Among the nine attributes every `LogRecord` carries, a successful `format`
    changes a value only by re-tagging a `str` as `unicode`: `None`, integers
    such as `levelno` and `unicode` values stay as they are.
   */
  lemma FormatRetagsRecordText(attrs: Attrs, usesTime: bool, ext: Externals, k: Attr)
    requires FormatSpec(attrs, usesTime, ext).raised == None
    requires k in RecordTextNames
    ensures k in attrs
    ensures var r := FormatSpec(attrs, usesTime, ext).attrs; k in r && r[k] == Retag(attrs[k])
  {
    FormatSpecStages(attrs, usesTime, ext);
    RecordTextNamesAre(k);
    CoercedNamesAre(k);
    var a := Prepared(attrs, usesTime, ext);
    PreparedKeeps(attrs, usesTime, ext, k);
    assert Retagged(a, Coerce(a, CoercedNames).attrs, k);
  }

  /**
    On a record without `asctime`, `format` raises `AttributeError` when the
    formatter does not render time: the rewrite reads `record.asctime`.
   */
  lemma FormatRaisesWithoutAsctime(attrs: Attrs, ext: Externals)
    requires (Datetime in attrs || Created in attrs) && ExcInfo in attrs
    requires Asctime !in attrs
    ensures FormatSpec(attrs, false, ext).raised == Some(AttributeError(Asctime))
  {
    var e := Enrich(attrs, ext);
    assert Agree(attrs, e.attrs, Asctime);
    assert Agree(e.attrs, Render(e.attrs, false, ext), Asctime);
  }

  lemma RetagIdempotent(v: Value)
    ensures Retag(Retag(v)) == Retag(v)
  {
  }

  /** Coercing values that are each the same or already re-tagged gives the same result. */
  lemma {:induction false} CoerceAbsorbsRetag(a: Attrs, b: Attrs, names: seq<Attr>)
    requires Coercible(a, names)
    requires forall k {:trigger Kept(a, b, k)} :: Kept(a, b, k)
    requires forall k {:trigger Agree(a, b, k)} | k !in names :: Agree(a, b, k)
    ensures Coerce(b, names) == Coerce(a, names)
  {
    assert Coercible(b, names) by {
      forall k | k in names
        ensures k in b && TextOk(b[k])
      {
        assert Kept(a, b, k);
      }
    }
    var ra := Coerce(a, names).attrs;
    var rb := Coerce(b, names).attrs;
    forall k
      ensures Agree(ra, rb, k)
    {
      if k in names {
        assert Retagged(a, ra, k) && Retagged(b, rb, k) && Kept(a, b, k);
        RetagIdempotent(a[k]);
      } else {
        assert Agree(a, ra, k) && Agree(b, rb, k) && Agree(a, b, k);
      }
    }
    assert forall k :: k in ra <==> k in rb by {
      forall k
        ensures k in ra <==> k in rb
      {
        assert Agree(ra, rb, k);
      }
    }
    assert forall k | k in ra :: ra[k] == rb[k] by {
      forall k | k in ra
        ensures ra[k] == rb[k]
      {
        assert Agree(ra, rb, k);
      }
    }
    assert ra == rb;
  }

  /** A formatted record passes the first two steps again. */
  lemma SecondPassPrepares(attrs: Attrs, usesTime: bool, ext: Externals)
    requires FormatSpec(attrs, usesTime, ext).raised == None
    ensures var r := FormatSpec(attrs, usesTime, ext).attrs;
      Prepares(r, usesTime, ext) && ExcInfo in r && r[ExcInfo] == attrs[ExcInfo]
  {
    var r := FormatSpec(attrs, usesTime, ext).attrs;
    FormatFillsHostTimeException(attrs, usesTime, ext);
    FormatMessageAndAsctime(attrs, usesTime, ext);
    CoercedNamesAre(ExcInfo);
    FormatChangesOnlyListed(attrs, usesTime, ext, ExcInfo);
    PreparesIff(r, usesTime, ext);
  }

  /** The values `format` sets itself are the same on the second pass, up to re-tagging. */
  lemma SecondPassSetKeys(attrs: Attrs, usesTime: bool, ext: Externals, k: Attr)
    requires FormatSpec(attrs, usesTime, ext).raised == None
    requires k == Hostname || k == Exception || k == Message || k == Datetime
    ensures var r := FormatSpec(attrs, usesTime, ext).attrs;
      Prepares(r, usesTime, ext) && Kept(Prepared(attrs, usesTime, ext), Prepared(r, usesTime, ext), k)
  {
    SecondPassPrepares(attrs, usesTime, ext);
    var r := FormatSpec(attrs, usesTime, ext).attrs;
    FormatFillsHostTimeException(attrs, usesTime, ext);
    PreparedValues(attrs, usesTime, ext);
    PreparedValues(r, usesTime, ext);
  }

  lemma SecondPassAsctime(attrs: Attrs, usesTime: bool, ext: Externals)
    requires FormatSpec(attrs, usesTime, ext).raised == None
    ensures var r := FormatSpec(attrs, usesTime, ext).attrs;
      Prepares(r, usesTime, ext) && Kept(Prepared(attrs, usesTime, ext), Prepared(r, usesTime, ext), Asctime)
  {
    SecondPassPrepares(attrs, usesTime, ext);
    var r := FormatSpec(attrs, usesTime, ext).attrs;
    FormatMessageAndAsctime(attrs, usesTime, ext);
    PreparedValues(attrs, usesTime, ext);
    PreparedValues(r, usesTime, ext);
    RewriteAsctimeIdempotent(AsctimeSource(attrs, usesTime, ext));
  }

  /** Every attribute `format` does not set reaches the second loop as the first loop left it. */
  lemma SecondPassOtherKeys(attrs: Attrs, usesTime: bool, ext: Externals, k: Attr)
    requires FormatSpec(attrs, usesTime, ext).raised == None
    requires k != Hostname && k != Exception && k != Message && k != Datetime && k != Asctime && k != ExcText
    ensures var r := FormatSpec(attrs, usesTime, ext).attrs;
      Prepares(r, usesTime, ext) &&
      Kept(Prepared(attrs, usesTime, ext), Prepared(r, usesTime, ext), k) &&
      (k !in CoercedNames ==> Agree(Prepared(attrs, usesTime, ext), Prepared(r, usesTime, ext), k))
  {
    SecondPassPrepares(attrs, usesTime, ext);
    var r := FormatSpec(attrs, usesTime, ext).attrs;
    FormatSpecStages(attrs, usesTime, ext);
    PreparedKeeps(attrs, usesTime, ext, k);
    PreparedKeeps(r, usesTime, ext, k);
    var a := Prepared(attrs, usesTime, ext);
    CoercedNamesAre(k);
    if k in CoercedNames {
      assert Retagged(a, r, k);
    } else {
      assert Agree(a, r, k);
    }
  }

  /** The traceback cached by the first pass is what the second pass has. */
  lemma SecondPassExcText(attrs: Attrs, usesTime: bool, ext: Externals)
    requires FormatSpec(attrs, usesTime, ext).raised == None
    ensures var r := FormatSpec(attrs, usesTime, ext).attrs;
      Prepares(r, usesTime, ext) && Agree(Prepared(attrs, usesTime, ext), Prepared(r, usesTime, ext), ExcText)
  {
    SecondPassPrepares(attrs, usesTime, ext);
    var r := FormatSpec(attrs, usesTime, ext).attrs;
    FormatSpecStages(attrs, usesTime, ext);
    CoercedNamesAre(ExcText);
    var a := Prepared(attrs, usesTime, ext);
    assert Agree(a, r, ExcText);
    PreparedExcText(attrs, usesTime, ext);
    PreparedExcText(r, usesTime, ext);
  }

  /**
    What a second `format` hands to the loop differs from what the first one
    did only by attributes the first loop re-tagged.
   */
  lemma SecondPassKey(attrs: Attrs, usesTime: bool, ext: Externals, k: Attr)
    requires FormatSpec(attrs, usesTime, ext).raised == None
    ensures var r := FormatSpec(attrs, usesTime, ext).attrs;
      Prepares(r, usesTime, ext) &&
      Kept(Prepared(attrs, usesTime, ext), Prepared(r, usesTime, ext), k) &&
      (k !in CoercedNames ==> Agree(Prepared(attrs, usesTime, ext), Prepared(r, usesTime, ext), k))
  {
    CoercedNamesAre(k);
    if k == Hostname || k == Exception || k == Message || k == Datetime {
      SecondPassSetKeys(attrs, usesTime, ext, k);
      if k == Datetime {
        var r := FormatSpec(attrs, usesTime, ext).attrs;
        FormatFillsHostTimeException(attrs, usesTime, ext);
        PreparedValues(attrs, usesTime, ext);
        PreparedValues(r, usesTime, ext);
      }
    } else if k == Asctime {
      SecondPassAsctime(attrs, usesTime, ext);
    } else if k == ExcText {
      SecondPassExcText(attrs, usesTime, ext);
    } else {
      SecondPassOtherKeys(attrs, usesTime, ext, k);
    }
  }

  /**
    Formatting a record a second time with the same inputs changes nothing:
    a record handled by two handlers ends up as if handled by one.
   */
  lemma FormatIdempotent(attrs: Attrs, usesTime: bool, ext: Externals)
    requires FormatSpec(attrs, usesTime, ext).raised == None
    ensures FormatSpec(FormatSpec(attrs, usesTime, ext).attrs, usesTime, ext) == FormatSpec(attrs, usesTime, ext)
  {
    var r := FormatSpec(attrs, usesTime, ext).attrs;
    var a := Prepared(attrs, usesTime, ext);
    var a2 := Prepared(r, usesTime, ext);
    SecondPassKey(attrs, usesTime, ext, Hostname);
    forall k
      ensures Kept(a, a2, k) && (k !in CoercedNames ==> Agree(a, a2, k))
    {
      SecondPassKey(attrs, usesTime, ext, k);
    }
    FormatSpecStages(attrs, usesTime, ext);
    FormatSpecStages(r, usesTime, ext);
    CoerceAbsorbsRetag(a, a2, CoercedNames);
  }

  // ---------------------------------------------------------------------------
  // The `Events` row (stlog/__init__.py:133-152)

  /** The keyword arguments of `Events(...)`, in the order Python evaluates them. */
  const EntryFields: seq<Attr> := [
    Datetime, Asctime, Created, Hostname, Filename, FuncName,
    Levelname, Levelno, Lineno, Module, Msecs, Message, Name,
    Pathname, Process, ProcessName, RelativeCreated, Thread,
    ThreadName, Exception]

  /** One `logentry` row: the value of each field. */
  datatype Entry = Entry(fields: Attrs)

  /** The first of `names` that `attrs` lacks, if any. */
  function FirstMissing(attrs: Attrs, names: seq<Attr>): (r: Option<Attr>)
    ensures r == None <==> forall k | k in names :: k in attrs
    ensures r.Some? ==> r.value in names && r.value !in attrs
    ensures r.Some? ==> exists i | 0 <= i < |names| :: names[i] == r.value && forall j | 0 <= j < i :: names[j] in attrs
    decreases |names|
  {
    if names == [] then None
    else if names[0] !in attrs then Some(names[0])
    else
      var r := FirstMissing(attrs, names[1..]);
      assert forall j | j in names[1..] :: j in names;
      if r.Some? then
        ghost var i :| 0 <= i < |names[1..]| && names[1..][i] == r.value && forall j | 0 <= j < i :: names[1..][j] in attrs;
        assert names[i + 1] == r.value && forall j | 0 <= j < i + 1 :: names[j] in attrs;
        r
      else r
  }

  /**
    Building the entry reads every field off the record; the first missing one
    raises `AttributeError`. Otherwise the row holds exactly those fields, with
    the record's values.
   */
  function BuildEntry(attrs: Attrs): (r: Result<Entry, PyError>)
    ensures r.Success? <==> forall k | k in EntryFields :: k in attrs
    ensures r.Success? ==> r.value.fields.Keys == set k | k in EntryFields
    ensures r.Success? ==> forall k | k in EntryFields :: r.value.fields[k] == attrs[k]
    ensures r.Failure? ==> exists k | k in EntryFields && k !in attrs :: r.error == AttributeError(k)
  {
    match FirstMissing(attrs, EntryFields)
    case Some(k) => Failure(AttributeError(k))
    case None => Success(Entry(map k | k in EntryFields :: attrs[k]))
  }
}
