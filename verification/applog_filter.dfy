/**
 * The line filter of `processLog`: which application log lines an exporter keeps,
 * and what text it keeps for each.
 *
 * A line is kept when its message is non-empty, its level is INFO, the message
 * splits on `^.*AppLog<TAB>` into exactly two parts, the second part parses as a
 * JSON object, and that object's `type` member is the exporter's type name. The
 * second part (the payload) is what is kept. Failing any step silently skips the
 * line; nothing is thrown.
 */
module AppLogFilter {
  import opened Wrappers
  import Json
  import opened LogRecords
  import opened MarkerSplit

  /** True when the payload parses and its `type` member reads as `typeName`. */
  predicate TypeMatches(lib: Json.Library, typeName: string, payload: string) {
    match lib.parse(payload)
    case None => false
    case Some(obj) => Json.GetString(lib, obj, "type") == Some(typeName)
  }

  /** The payload `processLog` keeps from one line, or `None` when the line is skipped. */
  function Accept(lib: Json.Library, typeName: string, line: AppLogLine): (r: Option<string>)
    ensures r.Some? ==> line.message.Some? && line.message.value != "" && line.level == Info
    ensures r.Some? ==> Payload(line.message.value) == r && TypeMatches(lib, typeName, r.value)
    ensures line.message.Some? && line.level == Info && Payload(line.message.value).Some?
            && TypeMatches(lib, typeName, Payload(line.message.value).value)
            ==> r == Payload(line.message.value)
  {
    match line.message
    case None => None
    case Some(msg) =>
      if msg == "" || line.level != Info then None
      else
        match Payload(msg)
        case None => None
        case Some(p) => if TypeMatches(lib, typeName, p) then Some(p) else None
  }

  /**
   * A line is kept exactly when it has a message, is at level INFO, its message
   * has a greedy `^.*AppLog<TAB>` match with text after it, and that text's `type`
   * is the type name; the text after the match is what is kept.
   */
  lemma AcceptCharacterisation(lib: Json.Library, typeName: string, line: AppLogLine)
    ensures Accept(lib, typeName, line).Some? <==>
      && line.message.Some?
      && line.level == Info
      && (exists k :: GreedyMatchAt(line.message.value, k)
                      && k + |Marker| < |line.message.value|
                      && TypeMatches(lib, typeName, line.message.value[k + |Marker|..]))
    ensures Accept(lib, typeName, line).Some? ==>
      exists k :: GreedyMatchAt(line.message.value, k)
                  && Accept(lib, typeName, line).value == line.message.value[k + |Marker|..]
  {
    if line.message.Some? {
      PayloadCharacterisation(line.message.value);
    }
  }

  /** `Payload` restated through the greedy match, for every candidate payload at once. */
  lemma PayloadCharacterisation(msg: string)
    ensures Payload(msg).Some? <==> exists k :: GreedyMatchAt(msg, k) && k + |Marker| < |msg|
    ensures forall k :: GreedyMatchAt(msg, k) && k + |Marker| < |msg| ==> Payload(msg) == Some(msg[k + |Marker|..])
    ensures msg == "" ==> Payload(msg).None?
  {
    forall k | GreedyMatchAt(msg, k) && k + |Marker| < |msg|
      ensures Payload(msg) == Some(msg[k + |Marker|..])
    {
      PayloadIsTextAfterGreedyMatch(msg, msg[k + |Marker|..]);
    }
    if Payload(msg).Some? {
      PayloadIsTextAfterGreedyMatch(msg, Payload(msg).value);
    }
  }

  /** The payloads of all kept lines, in line order; duplicates are kept. */
  function Filter(lib: Json.Library, typeName: string, lines: seq<AppLogLine>): (kept: seq<string>)
    ensures |kept| <= |lines|
  {
    if |lines| == 0 then []
    else
      var init := Filter(lib, typeName, lines[..|lines| - 1]);
      match Accept(lib, typeName, lines[|lines| - 1])
      case Some(p) => init + [p]
      case None => init
  }

  /** `processLog`'s loop over the lines, appending each kept payload as it goes. */
  method FilterLines(lib: Json.Library, typeName: string, lines: seq<AppLogLine>) returns (kept: seq<string>)
    ensures kept == Filter(lib, typeName, lines)
  {
    kept := [];
    var i := 0;
    while i < |lines|
      invariant 0 <= i <= |lines|
      invariant kept == Filter(lib, typeName, lines[..i])
    {
      assert lines[..i + 1][..i] == lines[..i];
      var r := Accept(lib, typeName, lines[i]);
      if r.Some? {
        kept := kept + [r.value];
      }
      i := i + 1;
    }
    assert lines[..i] == lines;
  }

  /** Filtering distributes over concatenation: each line is judged on its own. */
  lemma {:induction false} FilterAppend(lib: Json.Library, typeName: string, a: seq<AppLogLine>, b: seq<AppLogLine>)
    ensures Filter(lib, typeName, a + b) == Filter(lib, typeName, a) + Filter(lib, typeName, b)
    decreases |b|
  {
    if |b| == 0 {
      assert a + b == a;
    } else {
      var b' := b[..|b| - 1];
      assert (a + b)[..|a + b| - 1] == a + b';
      assert (a + b)[|a + b| - 1] == b[|b| - 1];
      FilterAppend(lib, typeName, a, b');
    }
  }

  /**
   * True when `kept` is the selection of `lines` made at the strictly increasing
   * positions `idx`: the j-th entry is the payload accepted from line `idx[j]`, and
   * every line at a position not listed is skipped.
   */
  ghost predicate SelectedAt(lib: Json.Library, typeName: string, lines: seq<AppLogLine>, kept: seq<string>, idx: seq<nat>) {
    && |idx| == |kept|
    && (forall j :: 0 <= j < |idx| ==> idx[j] < |lines|)
    && (forall j1, j2 :: 0 <= j1 < j2 < |idx| ==> idx[j1] < idx[j2])
    && (forall j :: 0 <= j < |idx| ==> Accept(lib, typeName, lines[idx[j]]) == Some(kept[j]))
    && (forall i :: 0 <= i < |lines| && i !in idx ==> Accept(lib, typeName, lines[i]).None?)
  }

  /**
   * The kept payloads are exactly the accepted lines' payloads in line order,
   * with nothing dropped, added, merged or reordered.
   */
  lemma {:induction false} FilterIsOrderedSelection(lib: Json.Library, typeName: string, lines: seq<AppLogLine>)
    returns (idx: seq<nat>)
    ensures SelectedAt(lib, typeName, lines, Filter(lib, typeName, lines), idx)
  {
    if |lines| == 0 {
      idx := [];
    } else {
      var n := |lines| - 1;
      var idx0 := FilterIsOrderedSelection(lib, typeName, lines[..n]);
      idx := SelectionStep(lib, typeName, lines, Filter(lib, typeName, lines[..n]), idx0);
    }
  }

  /** Extending a selection of all but the last line by the last line's verdict. */
  lemma SelectionStep(lib: Json.Library, typeName: string, lines: seq<AppLogLine>, kept0: seq<string>, idx0: seq<nat>)
    returns (idx: seq<nat>)
    requires |lines| > 0
    requires SelectedAt(lib, typeName, lines[..|lines| - 1], kept0, idx0)
    requires kept0 == Filter(lib, typeName, lines[..|lines| - 1])
    ensures SelectedAt(lib, typeName, lines, Filter(lib, typeName, lines), idx)
  {
    var n := |lines| - 1;
    match Accept(lib, typeName, lines[n])
    case Some(p) =>
      assert Filter(lib, typeName, lines) == kept0 + [p];
      idx := idx0 + [n];
      SelectionAppendKept(lib, typeName, lines, kept0, idx0, p);
    case None =>
      assert Filter(lib, typeName, lines) == kept0;
      idx := idx0;
      SelectionAppendSkipped(lib, typeName, lines, kept0, idx0);
  }

  /** The last line is accepted: its position and payload join the selection. */
  lemma SelectionAppendKept(lib: Json.Library, typeName: string, lines: seq<AppLogLine>, kept0: seq<string>, idx0: seq<nat>, p: string)
    requires |lines| > 0
    requires SelectedAt(lib, typeName, lines[..|lines| - 1], kept0, idx0)
    requires Accept(lib, typeName, lines[|lines| - 1]) == Some(p)
    ensures SelectedAt(lib, typeName, lines, kept0 + [p], idx0 + [|lines| - 1])
  {
    var n := |lines| - 1;
    var init := lines[..n];
    var idx := idx0 + [n];
    var kept := kept0 + [p];
    forall j | 0 <= j < |idx| ensures Accept(lib, typeName, lines[idx[j]]) == Some(kept[j]) {
      if j < |idx0| {
        assert idx[j] == idx0[j] && kept[j] == kept0[j];
        assert lines[idx0[j]] == init[idx0[j]];
      }
    }
    forall i | 0 <= i < |lines| && i !in idx ensures Accept(lib, typeName, lines[i]).None? {
      assert i != n;
      assert lines[i] == init[i];
    }
  }

  /** The last line is skipped: the selection stays as it was. */
  lemma SelectionAppendSkipped(lib: Json.Library, typeName: string, lines: seq<AppLogLine>, kept0: seq<string>, idx0: seq<nat>)
    requires |lines| > 0
    requires SelectedAt(lib, typeName, lines[..|lines| - 1], kept0, idx0)
    requires Accept(lib, typeName, lines[|lines| - 1]).None?
    ensures SelectedAt(lib, typeName, lines, kept0, idx0)
  {
    var n := |lines| - 1;
    var init := lines[..n];
    forall j | 0 <= j < |idx0| ensures Accept(lib, typeName, lines[idx0[j]]) == Some(kept0[j]) {
      assert lines[idx0[j]] == init[idx0[j]];
    }
    forall i | 0 <= i < |lines| && i !in idx0 ensures Accept(lib, typeName, lines[i]).None? {
      if i < n {
        assert lines[i] == init[i];
      }
    }
  }

  /** A line that fails the filter contributes nothing, wherever it stands. */
  lemma SkippedLineLeavesNoTrace(lib: Json.Library, typeName: string, a: seq<AppLogLine>, line: AppLogLine, b: seq<AppLogLine>)
    requires Accept(lib, typeName, line).None?
    ensures Filter(lib, typeName, a + [line] + b) == Filter(lib, typeName, a + b)
  {
    FilterAppend(lib, typeName, a + [line], b);
    FilterAppend(lib, typeName, a, [line]);
    FilterAppend(lib, typeName, a, b);
    assert [line][..0] == [];
  }

  /**
   * A line at a level other than INFO, or whose payload's `type` is not the
   * type name, never contributes, however well-formed it is.
   */
  lemma WrongLevelOrTypeNeverKept(lib: Json.Library, typeName: string, line: AppLogLine)
    requires line.level != Info
      || (line.message.Some? && Payload(line.message.value).Some?
          && !TypeMatches(lib, typeName, Payload(line.message.value).value))
    ensures Accept(lib, typeName, line).None?
  {
  }
}
