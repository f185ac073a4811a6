/**
  What one call of `DatabaseHandler.emit` does, stated on values: the record
  after `format`, the rows of the database session, and whether the record
  is handed to the fallback stream handler.
 */
module Emission {
  import opened Wrappers
  import opened PyValues
  import opened Formatting

  /** How a call of `emit` ends. */
  datatype EmitOutcome =
    | Committed            // the row was committed
    | FellBack             // the commit failed: rolled back, record formatted again and written by the fallback handler
    | Raised(error: PyError)  // `format` or the building of the row raised; `emit` does not catch it

  /**
    The state `emit` leaves: the record's attributes, the session's committed
    and pending rows, and whether the fallback handler wrote the record.
   */
  datatype EmitResult = EmitResult(
    outcome: EmitOutcome,
    attrs: Attrs,
    committed: seq<Entry>,
    pending: seq<Entry>,
    toFallback: bool)

  /**
    `emit`: format the record in place, then store it (`StoreSpec`). An
    exception from `format` leaves `emit` before anything is stored.
   */
  function EmitSpec(attrs: Attrs, usesTime: bool, ext: Externals, commitSucceeds: bool,
                    committed: seq<Entry>, pending: seq<Entry>): EmitResult
  {
    var s := FormatSpec(attrs, usesTime, ext);
    if s.raised.Some? then EmitResult(Raised(s.raised.value), s.attrs, committed, pending, false)
    else StoreSpec(s.attrs, usesTime, ext, commitSucceeds, committed, pending)
  }

  /**
    The rest of `emit` on the formatted record: build the `Events` row (which
    joins the session's pending rows) and commit. A failed commit rolls the
    session back and hands the record to `handleError`, whose fallback
    `StreamHandler.emit` formats it again with the library formatter (the
    same formatter, so `usesTime` is the handler's) before writing it.
   */
  function StoreSpec(attrs: Attrs, usesTime: bool, ext: Externals, commitSucceeds: bool,
                     committed: seq<Entry>, pending: seq<Entry>): EmitResult {
    match BuildEntry(attrs)
    case Failure(err) => EmitResult(Raised(err), attrs, committed, pending, false)
    case Success(entry) =>
      if commitSucceeds then EmitResult(Committed, attrs, committed + pending + [entry], [], false)
      else EmitResult(FellBack, Render(attrs, usesTime, ext), committed, [], true)
  }

  /** The six `Events` fields that `format` neither sets nor reads. */
  predicate HasRowOnlyFields(attrs: Attrs) {
    Created in attrs && Lineno in attrs && Msecs in attrs && Process in attrs && RelativeCreated in attrs && Thread in attrs
  }

  predicate IsRowOnly(k: Attr) {
    k.Created? || k.Lineno? || k.Msecs? || k.Process? || k.RelativeCreated? || k.Thread?
  }

  lemma EntryFieldsAre(k: Attr)
    requires k in EntryFields
    ensures k.Datetime? || k.Asctime? || k.Hostname? || k.Message? || k.Exception? || IsRecordText(k) || IsRowOnly(k)
  {
  }

  lemma RowOnlyInEntryFields(k: Attr)
    requires IsRowOnly(k)
    ensures k in EntryFields
  {
  }

  /** `format` leaves the six fields it does not provide as the record had them. */
  lemma RowOnlyKept(attrs: Attrs, usesTime: bool, ext: Externals, k: Attr)
    requires IsRowOnly(k)
    ensures Agree(attrs, FormatSpec(attrs, usesTime, ext).attrs, k)
  {
    CoercedNamesAre(k);
    FormatChangesOnlyListed(attrs, usesTime, ext, k);
  }

  /** After a successful `format`, every `Events` field other than those six is on the record. */
  lemma FormattedSetField(attrs: Attrs, usesTime: bool, ext: Externals, k: Attr)
    requires FormatSpec(attrs, usesTime, ext).raised == None
    requires k.Datetime? || k.Asctime? || k.Hostname? || k.Message? || k.Exception? || IsRecordText(k)
    ensures k in FormatSpec(attrs, usesTime, ext).attrs
  {
    FormatAfterPrepared(attrs, usesTime, ext, k);
    if IsRecordText(k) {
      RecordTextNamesAre(k);
      FormatRetagsRecordText(attrs, usesTime, ext, k);
    } else {
      PreparedValues(attrs, usesTime, ext);
    }
  }

  lemma RowBuildsIff(attrs: Attrs, usesTime: bool, ext: Externals)
    requires FormatSpec(attrs, usesTime, ext).raised == None
    ensures BuildEntry(FormatSpec(attrs, usesTime, ext).attrs).Success? <==> HasRowOnlyFields(attrs)
  {
    if HasRowOnlyFields(attrs) {
      RowBuilds(attrs, usesTime, ext);
    } else {
      var k :| IsRowOnly(k) && k !in attrs;
      RowOnlyInEntryFields(k);
      RowOnlyKept(attrs, usesTime, ext, k);
    }
  }

  lemma RowBuilds(attrs: Attrs, usesTime: bool, ext: Externals)
    requires FormatSpec(attrs, usesTime, ext).raised == None
    requires HasRowOnlyFields(attrs)
    ensures forall k | k in EntryFields :: k in FormatSpec(attrs, usesTime, ext).attrs
  {
    forall k | k in EntryFields
      ensures k in FormatSpec(attrs, usesTime, ext).attrs
    {
      EntryFieldsAre(k);
      if IsRowOnly(k) {
        RowOnlyKept(attrs, usesTime, ext, k);
      } else {
        FormattedSetField(attrs, usesTime, ext, k);
      }
    }
  }

  /**
    `emit` raises exactly when `format` does (see `FormatSucceedsIff`) or the
    record lacks one of the six `Events` fields `format` does not provide.
   */
  lemma EmitRaisesIff(attrs: Attrs, usesTime: bool, ext: Externals, commitSucceeds: bool,
                      committed: seq<Entry>, pending: seq<Entry>)
    ensures EmitSpec(attrs, usesTime, ext, commitSucceeds, committed, pending).outcome.Raised?
      <==> !(Formattable(attrs, usesTime, ext) && HasRowOnlyFields(attrs))
  {
    FormatSucceedsIff(attrs, usesTime, ext);
    if FormatSpec(attrs, usesTime, ext).raised == None {
      RowBuildsIff(attrs, usesTime, ext);
    }
  }

  /**
    When `emit` does not raise it has exactly one of two outcomes. A successful
    commit adds the pending rows and the new row, which holds the formatted
    record's values, to the committed ones, and sends nothing to the
    fallback. A failed one leaves the committed rows as they were, clears the
    pending ones and sends the record to the fallback once, which formats it
    again with the library formatter.
   */
  lemma EmitOutcomes(attrs: Attrs, usesTime: bool, ext: Externals, commitSucceeds: bool,
                     committed: seq<Entry>, pending: seq<Entry>)
    requires !EmitSpec(attrs, usesTime, ext, commitSucceeds, committed, pending).outcome.Raised?
    ensures var r := EmitSpec(attrs, usesTime, ext, commitSucceeds, committed, pending);
      var formatted := FormatSpec(attrs, usesTime, ext).attrs;
      && (r.outcome == Committed <==> commitSucceeds)
      && (r.outcome == FellBack <==> !commitSucceeds)
      && (r.outcome == Committed ==>
            && |r.committed| == |committed| + |pending| + 1
            && r.committed[..|committed| + |pending|] == committed + pending
            && r.committed[|r.committed| - 1].fields == (map k | k in EntryFields :: formatted[k])
            && r.attrs == formatted && r.pending == [] && !r.toFallback)
      && (r.outcome == FellBack ==>
            && r.attrs == Render(formatted, usesTime, ext)
            && r.committed == committed && r.pending == [] && r.toFallback)
  {
    var formatted := FormatSpec(attrs, usesTime, ext).attrs;
    var b := BuildEntry(formatted);
    if commitSucceeds {
      var rows := committed + pending + [b.value];
      assert rows[..|committed| + |pending|] == committed + pending;
      assert b.value.fields == (map k | k in EntryFields :: formatted[k]);
    }
  }

  /** When `emit` raises, the session and the fallback handler are as they were. */
  lemma EmitRaisedLeavesSession(attrs: Attrs, usesTime: bool, ext: Externals, commitSucceeds: bool,
                                committed: seq<Entry>, pending: seq<Entry>)
    requires EmitSpec(attrs, usesTime, ext, commitSucceeds, committed, pending).outcome.Raised?
    ensures var r := EmitSpec(attrs, usesTime, ext, commitSucceeds, committed, pending);
      r.committed == committed && r.pending == pending && !r.toFallback
      && r.attrs == FormatSpec(attrs, usesTime, ext).attrs
  {
  }

  /**
    A handler whose format does not render time raises `AttributeError` from
    `emit` on every record that brings no `asctime` of its own.
   */
  lemma EmitRaisesWithoutAsctime(attrs: Attrs, ext: Externals, commitSucceeds: bool,
                                 committed: seq<Entry>, pending: seq<Entry>)
    requires (Datetime in attrs || Created in attrs) && ExcInfo in attrs
    requires Asctime !in attrs
    ensures EmitSpec(attrs, false, ext, commitSucceeds, committed, pending).outcome == Raised(AttributeError(Asctime))
  {
    FormatRaisesWithoutAsctime(attrs, ext);
  }

  /**
    After a failed commit the record the fallback writes has the library's
    own `message` and `asctime` again (a `str`, the timestamp's comma kept),
    and every other attribute as `format` left it, the cached `exc_text`
    included.
   */
  lemma EmitFallbackRecord(attrs: Attrs, usesTime: bool, ext: Externals,
                           committed: seq<Entry>, pending: seq<Entry>)
    requires EmitSpec(attrs, usesTime, ext, false, committed, pending).outcome == FellBack
    ensures var r := EmitSpec(attrs, usesTime, ext, false, committed, pending).attrs;
      var formatted := FormatSpec(attrs, usesTime, ext).attrs;
      && Message in r && r[Message] == ext.messageText
      && (usesTime ==> Asctime in r && r[Asctime] == Str(ext.timeText))
      && (!usesTime ==> Agree(formatted, r, Asctime))
      && forall k {:trigger Agree(formatted, r, k)} | k != Message && k != Asctime :: Agree(formatted, r, k)
  {
    RenderKeepsCachedExcText(attrs, usesTime, ext);
  }
}
