/**
 * The comment-preserving sort of a JSON-with-comments file (my/cli/json/sort_file.py).
 *
 * Four stages: every full-line `//` comment is replaced by a placeholder that starts
 * with a fresh substitution id (the sanitiser); the text is parsed, and a placeholder
 * on the line a parse error names is patched and the parse retried (the repair loop);
 * the list at a dotted path is sorted stably by the case-folded text of a dotted key;
 * the document is serialised and every line that starts with a known id is replaced
 * by the comment line it stands for (the reversal).
 *
 * The parser `json5.loads` and the serialiser `json.dumps(..., indent=2).splitlines()`
 * are parameters (`loads`, `dumps`); the ids `uuid7()` would draw are a parameter too.
 */
module SortFile {
  import opened Wrappers
  import opened Text
  import opened Uuid
  import opened JsonValue
  import opened StableSorting

  /** One comment line that was replaced by a placeholder. */
  datatype Substitution = Substitution(id: Id, originalLine: string, originalLineIdx: nat)

  // ---------------------------------------------------------------------------
  // Placeholders

  /** `_is_commented_line`: after leading whitespace the line starts with `//`. */
  predicate IsCommentedLine(line: string) {
    StartsWith(LStrip(line), "//")
  }

  /** A line is a comment exactly when it is some whitespace followed by `//`. */
  lemma CommentedLineIff(line: string)
    ensures IsCommentedLine(line) <==>
      exists k :: 0 <= k && k + 2 <= |line| && AllSpace(line[..k]) && line[k..k + 2] == "//"
  {
    LStripByStripsPrefix(line, IsSpace);
    var r := LStrip(line);
    var k0 := |line| - |r|;
    if IsCommentedLine(line) {
      assert line[..k0] + r == line;
      assert line[k0..k0 + 2] == r[..2];
    }
    forall k | 0 <= k && k + 2 <= |line| && AllSpace(line[..k]) && line[k..k + 2] == "//"
      ensures IsCommentedLine(line)
    {
      assert line == line[..k] + line[k..];
      LStripSkipsIndent(line[..k], line[k..]);
      assert line[k] == line[k..k + 2][0] == '/';
      assert LStrip(line[k..]) == line[k..];
      assert line[k..][..2] == line[k..k + 2];
    }
  }

  /** What `_inject_substitution` keeps of a line: `line.lstrip().lstrip("/").lstrip()`. */
  function CommentBody(line: string): string {
    LStrip(LStripChar(LStrip(line), '/'))
  }

  /** `_inject_substitution`: a comment whose body is a JSON string becomes that string with
      the id put in front of its text; anything else becomes `"id": null,` (as a key/value
      pair) or `"id",` (as a list element). Every placeholder starts with `"` and the id. */
  function InjectSubstitution(line: string, id: Id, asKvp: bool): (r: string)
    ensures StartsWith(r, "\"" + id)
  {
    var rest := CommentBody(line);
    if StartsWith(rest, "\"") then "\"" + id + rest[1..]
    else if asKvp then "\"" + id + "\": null,"
    else "\"" + id + "\","
  }

  /** Of a comment line `ws` `//...` `ws'` `rest`, the placeholder keeps `rest`. */
  lemma CommentBodyOf(ws: string, slashes: string, ws': string, rest: string)
    requires AllSpace(ws) && AllSpace(ws')
    requires |slashes| >= 1 && forall i :: 0 <= i < |slashes| ==> slashes[i] == '/'
    requires rest == [] || (!IsSpace(rest[0]) && (ws' != [] || rest[0] != '/'))
    ensures CommentBody(ws + slashes + ws' + rest) == rest
  {
    var afterWs := slashes + ws' + rest;
    assert ws + slashes + ws' + rest == ws + afterWs;
    LStripSkipsIndent(ws, afterWs);
    assert LStrip(afterWs) == afterWs;
    assert afterWs == slashes + (ws' + rest);
    LStripBySkips(slashes, ws' + rest, x => x == '/');
    if ws' != [] {
      assert LStripChar(ws' + rest, '/') == ws' + rest;
    } else {
      assert ws' + rest == rest;
    }
    LStripSkipsIndent(ws', rest);
  }

  /** An indented placeholder is found again by `UUID_ON_LINE`, with the id it was built
      from. */
  lemma InjectedIdFound(ws: string, line: string, id: Id, asKvp: bool)
    requires AllSpace(ws)
    ensures MatchUuidOnLine(ws + InjectSubstitution(line, id, asKvp)) == Some(id)
  {
    var placeholder := InjectSubstitution(line, id, asKvp);
    var rest := placeholder[|"\"" + id|..];
    assert placeholder == "\"" + id + rest;
    assert ws + placeholder == ws + "\"" + id + rest;
    MatchFindsQuotedId(ws, id, rest);
  }

  /** The three shapes a placeholder takes, read off the comment as written: indentation,
      the slashes, more indentation, then `rest`. A `rest` that is a JSON string keeps its
      text behind the id; anything else is dropped for `"id": null,` or `"id",`. */
  lemma InjectShapes(ws: string, slashes: string, ws': string, rest: string, id: Id, asKvp: bool)
    requires AllSpace(ws) && AllSpace(ws')
    requires |slashes| >= 1 && forall i :: 0 <= i < |slashes| ==> slashes[i] == '/'
    requires rest == [] || (!IsSpace(rest[0]) && (ws' != [] || rest[0] != '/'))
    ensures var p := InjectSubstitution(ws + slashes + ws' + rest, id, asKvp);
      && (StartsWith(rest, "\"") ==> p == "\"" + id + rest[1..])
      && (!StartsWith(rest, "\"") && asKvp ==> p == "\"" + id + "\": null,")
      && (!StartsWith(rest, "\"") && !asKvp ==> p == "\"" + id + "\",")
  {
    CommentBodyOf(ws, slashes, ws', rest);
  }

  /** `as_kvp` makes no difference to a comment whose body is a JSON string: the comma
      repair gives back its string placeholder. */
  lemma KvpKeepsStrings(line: string, id: Id)
    requires StartsWith(CommentBody(line), "\"")
    ensures InjectSubstitution(line, id, true) == InjectSubstitution(line, id, false)
  {
  }

  // ---------------------------------------------------------------------------
  // Sanitiser

  /** The placeholder text, the table by id and the table by line index. */
  datatype Tables = Tables(lines: seq<string>, subs: map<Id, Substitution>, subsByLineIdx: map<int, Substitution>)

  function CommentCount(lines: seq<string>): (n: nat)
    ensures n <= |lines|
  {
    if lines == [] then 0
    else CommentCount(lines[..|lines| - 1]) + (if IsCommentedLine(lines[|lines| - 1]) then 1 else 0)
  }

  predicate DistinctIds(ids: seq<Id>) {
    forall i, j :: 0 <= i < j < |ids| ==> ids[i] != ids[j]
  }

  /** The sanitise loop of `main`: the k-th comment line (counting from 0) takes `ids[k]`. */
  function Sanitised(oldLines: seq<string>, ids: seq<Id>): (t: Tables)
    requires CommentCount(oldLines) <= |ids|
    ensures |t.lines| == |oldLines|
    ensures forall i :: i in t.subsByLineIdx ==> 0 <= i < |oldLines|
  {
    if oldLines == [] then Tables([], map[], map[])
    else
      var n := |oldLines| - 1;
      var t := Sanitised(oldLines[..n], ids);
      var line := oldLines[n];
      if IsCommentedLine(line) then
        var sub := Substitution(ids[CommentCount(oldLines[..n])], line, n);
        Tables(t.lines + [InjectSubstitution(line, sub.id, false)], t.subs[sub.id := sub], t.subsByLineIdx[n := sub])
      else
        Tables(t.lines + [line], t.subs, t.subsByLineIdx)
  }

  /** Sanitising one more line: the prefix's tables, and the next line passed through or,
      for a comment, replaced by its placeholder under the next unused id. */
  lemma SanitisedPrefix(oldLines: seq<string>, ids: seq<Id>, k: nat)
    requires k < |oldLines| && CommentCount(oldLines) <= |ids|
    ensures CommentCount(oldLines[..k]) <= CommentCount(oldLines[..k + 1]) <= |ids|
    ensures CommentCount(oldLines[..k + 1]) == CommentCount(oldLines[..k]) + (if IsCommentedLine(oldLines[k]) then 1 else 0)
    ensures var t := Sanitised(oldLines[..k], ids);
      var c := CommentCount(oldLines[..k]);
      Sanitised(oldLines[..k + 1], ids) ==
        if IsCommentedLine(oldLines[k]) then
          var sub := Substitution(ids[c], oldLines[k], k);
          Tables(t.lines + [InjectSubstitution(oldLines[k], ids[c], false)], t.subs[ids[c] := sub], t.subsByLineIdx[k := sub])
        else
          Tables(t.lines + [oldLines[k]], t.subs, t.subsByLineIdx)
  {
    var pre := oldLines[..k + 1];
    assert pre[..k] == oldLines[..k];
    CommentCountOfPrefix(oldLines, k + 1);
    SanitisedLast(pre, ids);
  }

  /** `Sanitised` of a non-empty input, split at its last line. */
  lemma SanitisedLast(lines: seq<string>, ids: seq<Id>)
    requires lines != [] && CommentCount(lines) <= |ids|
    ensures var n := |lines| - 1;
      var t := Sanitised(lines[..n], ids);
      var c := CommentCount(lines[..n]);
      && c + (if IsCommentedLine(lines[n]) then 1 else 0) == CommentCount(lines)
      && Sanitised(lines, ids) ==
        if IsCommentedLine(lines[n]) then
          var sub := Substitution(ids[c], lines[n], n);
          Tables(t.lines + [InjectSubstitution(lines[n], ids[c], false)], t.subs[ids[c] := sub], t.subsByLineIdx[n := sub])
        else
          Tables(t.lines + [lines[n]], t.subs, t.subsByLineIdx)
  {
  }

  /** The sanitise loop of `main`, appending to `new_lines` and filling both tables. */
  method Sanitise(oldLines: seq<string>, ids: seq<Id>)
    returns (newLines: seq<string>, subs: map<Id, Substitution>, subsByLineIdx: map<int, Substitution>)
    requires CommentCount(oldLines) <= |ids|
    ensures Tables(newLines, subs, subsByLineIdx) == Sanitised(oldLines, ids)
  {
    newLines, subs, subsByLineIdx := [], map[], map[];
    var used := 0;
    for lineIdx := 0 to |oldLines|
      invariant used == CommentCount(oldLines[..lineIdx]) <= |ids|
      invariant Tables(newLines, subs, subsByLineIdx) == Sanitised(oldLines[..lineIdx], ids)
    {
      SanitisedPrefix(oldLines, ids, lineIdx);
      var line := oldLines[lineIdx];
      if IsCommentedLine(line) {
        var sub := Substitution(ids[used], line, lineIdx);
        used := used + 1;
        subs := subs[sub.id := sub];
        subsByLineIdx := subsByLineIdx[sub.originalLineIdx := sub];
        line := InjectSubstitution(line, sub.id, false);
      }
      newLines := newLines + [line];
    }
    assert oldLines[..|oldLines|] == oldLines;
  }

  lemma {:induction false} CommentCountOfPrefix(lines: seq<string>, k: nat)
    requires k <= |lines|
    ensures CommentCount(lines[..k]) <= CommentCount(lines)
  {
    if k < |lines| {
      CommentCountOfPrefix(lines[..|lines| - 1], k);
      assert lines[..|lines| - 1][..k] == lines[..k];
    } else {
      assert lines[..k] == lines;
    }
  }

  /** Line by line: a line that is not a comment passes unchanged and has no entry; the
      comment line i has the entry holding its text and index under the id of its rank
      among the comments, and its line is the placeholder for that id. */
  lemma {:induction false} SanitisedLine(oldLines: seq<string>, ids: seq<Id>, i: nat)
    requires CommentCount(oldLines) <= |ids| && i < |oldLines|
    ensures CommentCount(oldLines[..i]) + (if IsCommentedLine(oldLines[i]) then 1 else 0) <= |ids|
    ensures var t := Sanitised(oldLines, ids);
      if IsCommentedLine(oldLines[i]) then
        var sub := Substitution(ids[CommentCount(oldLines[..i])], oldLines[i], i);
        i in t.subsByLineIdx && t.subsByLineIdx[i] == sub && t.lines[i] == InjectSubstitution(oldLines[i], sub.id, false)
      else
        i !in t.subsByLineIdx && t.lines[i] == oldLines[i]
  {
    var n := |oldLines| - 1;
    var init := oldLines[..n];
    SanitisedPrefix(oldLines, ids, i);
    assert oldLines[..n + 1] == oldLines;
    if i < n {
      SanitisedPrefix(oldLines, ids, n);
      SanitisedLine(init, ids, i);
      assert init[..i] == oldLines[..i];
    }
  }

  /** Id by id: the table by id holds exactly the ids handed to the comments, and each entry
      is a comment line of the input, filed under its own id and, at its index, in the
      table by line index. */
  lemma {:induction false} SanitisedById(oldLines: seq<string>, ids: seq<Id>, u: Id)
    requires CommentCount(oldLines) <= |ids|
    ensures var t := Sanitised(oldLines, ids);
      && (u in t.subs <==> u in ids[..CommentCount(oldLines)])
      && (u in t.subs ==>
            var sub := t.subs[u];
            && sub.id == u && sub.originalLineIdx < |oldLines|
            && IsCommentedLine(oldLines[sub.originalLineIdx]) && sub.originalLine == oldLines[sub.originalLineIdx]
            && sub.originalLineIdx in t.subsByLineIdx && t.subsByLineIdx[sub.originalLineIdx] == sub)
  {
    if oldLines != [] {
      var n := |oldLines| - 1;
      var init := oldLines[..n];
      var c := CommentCount(init);
      SanitisedById(init, ids, u);
      SanitisedPrefix(oldLines, ids, n);
      assert oldLines[..n + 1] == oldLines;
      var t := Sanitised(init, ids);
      if u in t.subs {
        assert oldLines[t.subs[u].originalLineIdx] == init[t.subs[u].originalLineIdx];
      }
      if IsCommentedLine(oldLines[n]) {
        assert ids[..c + 1] == ids[..c] + [ids[c]];
      }
    }
  }

  /** With distinct ids, the entry of every comment line is also the entry of its id. */
  lemma {:induction false} SanitisedLineById(oldLines: seq<string>, ids: seq<Id>, i: nat)
    requires CommentCount(oldLines) <= |ids| && DistinctIds(ids)
    requires i < |oldLines| && IsCommentedLine(oldLines[i])
    ensures var t := Sanitised(oldLines, ids);
      i in t.subsByLineIdx && t.subsByLineIdx[i].id in t.subs && t.subs[t.subsByLineIdx[i].id] == t.subsByLineIdx[i]
  {
    var n := |oldLines| - 1;
    var init := oldLines[..n];
    var c := CommentCount(init);
    SanitisedPrefix(oldLines, ids, n);
    assert oldLines[..n + 1] == oldLines;
    SanitisedLine(oldLines, ids, i);
    if i < n {
      assert init[i] == oldLines[i];
      SanitisedLineById(init, ids, i);
      var sub := Sanitised(init, ids).subsByLineIdx[i];
      if IsCommentedLine(oldLines[n]) {
        SanitisedById(init, ids, sub.id);
        var k :| 0 <= k < c && ids[k] == sub.id;
        assert sub.id != ids[c];
      }
    }
  }

  // ---------------------------------------------------------------------------
  // Repair loop

  /** What `json5.loads` does with a text: a document, or a ValueError with its message. */
  datatype ParseOutcome = Parsed(doc: Value) | Rejected(message: string)

  const Tag: string := "<string>:"
  const UnexpectedComma: string := "Unexpected \",\""
  const UnexpectedQuote: string := "Unexpected \"\"\""

  /** `<string>:` followed by a digit starts at `i`. */
  predicate TagAt(e: string, i: int) {
    OccursAt(e, Tag, i) && i + |Tag| < |e| && IsDigit(e[i + |Tag|])
  }

  function FindTag(e: string, from: nat): (r: Option<nat>)
    requires from <= |e|
    ensures r.Some? ==> from <= r.value && TagAt(e, r.value)
    decreases |e| - from
  {
    if from == |e| then None
    else if TagAt(e, from) then Some(from)
    else FindTag(e, from + 1)
  }

  /** The search finds the first tag from `from` on, and `None` only when there is none. */
  lemma {:induction false} FindTagFindsFirst(e: string, from: nat)
    requires from <= |e|
    ensures var r := FindTag(e, from);
      && (r.Some? ==> from <= r.value && TagAt(e, r.value))
      && (r.Some? ==> forall i :: from <= i < r.value ==> !TagAt(e, i))
      && (r.None? ==> forall i :: from <= i ==> !TagAt(e, i))
    decreases |e| - from
  {
    if from < |e| && !TagAt(e, from) {
      FindTagFindsFirst(e, from + 1);
    }
  }

  /** `_get_line_idx_from_error`: `re.search(r"<string>:(\d+)", error)`, then the number
      minus one. */
  function LineIdxFromError(error: string): (r: Option<int>)
    ensures r.Some? ==> r.value >= -1
  {
    match FindTag(error, 0)
    case None => None
    case Some(i) => Some(DigitsValue(DigitPrefix(error[i + |Tag|..])) - 1)
  }

  /** No line number exactly when no `<string>:` in the message is followed by a digit. */
  lemma LineIdxFromErrorNone(error: string)
    ensures LineIdxFromError(error).None? <==> forall i :: !TagAt(error, i)
  {
    FindTagFindsFirst(error, 0);
  }

  /** The number read is the whole digit run after the first tag that has one. */
  lemma LineIdxAtFirstTag(error: string, i: nat)
    requires TagAt(error, i)
    requires forall j :: 0 <= j < i ==> !TagAt(error, j)
    ensures LineIdxFromError(error) == Some(DigitsValue(DigitPrefix(error[i + |Tag|..])) - 1)
  {
    FindTagFindsFirst(error, 0);
    var r := FindTag(error, 0);
    assert r.Some? && r.value == i;
  }

  /** A parser message `<string>:N ...` gives back the 0-based line index N - 1. */
  lemma LineIdxOfParserMessage(n: nat, rest: string)
    requires rest == [] || !IsDigit(rest[0])
    ensures LineIdxFromError(Tag + Decimal(n) + rest) == Some(n - 1)
  {
    var d := Decimal(n);
    var e := Tag + d + rest;
    assert e[..|Tag|] == Tag;
    assert e[|Tag|..] == d + rest;
    assert e[|Tag|] == d[0];
    assert TagAt(e, 0);
    DigitPrefixOfRun(d, rest);
    assert DigitPrefix(e[|Tag|..]) == d;
    DecimalRoundTrip(n);
    assert FindTag(e, 0) == Some(0);
    assert LineIdxFromError(e) == Some(DigitsValue(DigitPrefix(e[|Tag|..])) - 1);
  }

  /** The tuple `_try_load` returns when it does not give up. */
  datatype Attempt = Attempt(data: Option<Value>, failedLineIdx: Option<int>, errorMsg: Option<string>)

  /** `_try_load`: parse the joined lines; on a failure whose line index is the one that
      failed last time, give up (`None`). */
  function TryLoad(lines: seq<string>, lastFailedLineIdx: Option<int>, loads: string -> ParseOutcome): (r: Option<Attempt>)
    ensures r.Some? && r.value.errorMsg.None? ==> r.value.data.Some?
    ensures r.None? ==> loads(JoinLines(lines)).Rejected? && lastFailedLineIdx == LineIdxFromError(loads(JoinLines(lines)).message)
  {
    match loads(JoinLines(lines))
    case Parsed(doc) => Some(Attempt(Some(doc), None, None))
    case Rejected(msg) =>
      var failedLineIdx := LineIdxFromError(msg);
      if lastFailedLineIdx == failedLineIdx then None
      else Some(Attempt(None, failedLineIdx, Some(msg)))
  }

  /** Every key of the table is an index of `lines`. */
  predicate IndicesIn(subsByLineIdx: map<int, Substitution>, n: nat) {
    forall i :: i in subsByLineIdx ==> 0 <= i < n
  }

  /** Lines that differ from `lines` at most where a placeholder is. */
  ghost predicate SameOutsidePlaceholders(lines': seq<string>, lines: seq<string>, subsByLineIdx: map<int, Substitution>) {
    |lines'| == |lines| && forall j :: 0 <= j < |lines| && j !in subsByLineIdx ==> lines'[j] == lines[j]
  }

  /** One repair step on the failed line: when it holds a placeholder, `Unexpected ","`
      rebuilds it from the comment with `as_kvp` set (`"id": null,` when the comment's body
      is not a JSON string, otherwise its string placeholder again, dropping any comma put
      in front earlier), and `Unexpected """` puts a comma in front of it. No other line changes, and a line that holds no
      placeholder never changes. (The keys of the table `main` builds are indices of its
      lines, so the range test only makes the function total.) */
  function Repaired(lines: seq<string>, failedLineIdx: int, errorMsg: string, subsByLineIdx: map<int, Substitution>): (r: seq<string>)
    ensures |r| == |lines|
    ensures forall j :: 0 <= j < |lines| && j != failedLineIdx ==> r[j] == lines[j]
    ensures failedLineIdx !in subsByLineIdx ==> r == lines
    ensures !Contains(errorMsg, UnexpectedComma) && !Contains(errorMsg, UnexpectedQuote) ==> r == lines
  {
    if failedLineIdx in subsByLineIdx && 0 <= failedLineIdx < |lines| then
      var sub := subsByLineIdx[failedLineIdx];
      if Contains(errorMsg, UnexpectedComma) then
        lines[failedLineIdx := InjectSubstitution(sub.originalLine, sub.id, true)]
      else if Contains(errorMsg, UnexpectedQuote) then
        lines[failedLineIdx := "," + lines[failedLineIdx]]
      else
        lines
    else
      lines
  }

  /** How the loop of `main` ends. `ErrorMsgUnbound` is the first parse failing with no line
      number: `_try_load` gives up at once, the loop body never runs and `error_msg` is read
      unbound. `StillRepairing` means the attempts allowed ran out. */
  datatype LoadResult = Loaded(doc: Value) | LoadFailed(message: string) | ErrorMsgUnbound | StillRepairing

  /** The variables of the loop of `main`: `new_lines`, `last_failed_line_idx` and
      `error_msg` (`None`: not yet bound). */
  datatype LoopState = LoopState(lines: seq<string>, lastFailedLineIdx: Option<int>, errorMsg: Option<string>)

  /** Where one pass of a loop leads: out of the loop with a result, or round again. */
  datatype Step = Done(result: LoadResult) | Continue(next: LoopState)

  /** A loop allowed `fuel` passes of `body`. */
  function Iterate(st: LoopState, body: LoopState -> Step, fuel: nat): LoadResult
    decreases fuel
  {
    if fuel == 0 then StillRepairing
    else match body(st)
      case Done(r) => r
      case Continue(next) => Iterate(next, body, fuel - 1)
  }

  /** More passes never change an outcome that was reached. */
  lemma {:induction false} IterateFuelMonotone(st: LoopState, body: LoopState -> Step, fuel: nat, more: nat)
    requires Iterate(st, body, fuel) != StillRepairing
    ensures Iterate(st, body, fuel + more) == Iterate(st, body, fuel)
    decreases fuel
  {
    match body(st)
    case Done(_) =>
    case Continue(next) => IterateFuelMonotone(next, body, fuel - 1, more);
  }

  /** A loop whose body goes round again from every state of an invariant that it keeps
      runs out of passes, however many it is allowed. */
  lemma {:induction false} IterateNeverStops(st: LoopState, body: LoopState -> Step, inv: LoopState -> bool, fuel: nat)
    requires inv(st)
    requires forall s :: inv(s) ==> body(s).Continue? && inv(body(s).next)
    ensures Iterate(st, body, fuel) == StillRepairing
    decreases fuel
  {
    if fuel > 0 {
      IterateNeverStops(body(st).next, body, inv, fuel - 1);
    }
  }

  /** One pass of the `while result := _try_load(...)` loop of `main`: stop on a successful
      parse, on `_try_load` giving up (the previous message, or none bound yet), and on a
      failure with an empty message or no line number; otherwise repair the failed line. */
  function RepairStep(subsByLineIdx: map<int, Substitution>, loads: string -> ParseOutcome, st: LoopState): (r: Step)
    ensures loads(JoinLines(st.lines)).Parsed? ==> r == Done(Loaded(loads(JoinLines(st.lines)).doc))
    ensures r.Done? && r.result.Loaded? ==> loads(JoinLines(st.lines)).Parsed?
    ensures r.Continue? ==>
      && loads(JoinLines(st.lines)).Rejected?
      && r.next.errorMsg == Some(loads(JoinLines(st.lines)).message) != Some("")
      && r.next.lastFailedLineIdx == LineIdxFromError(loads(JoinLines(st.lines)).message)
      && r.next.lastFailedLineIdx.Some? && r.next.lastFailedLineIdx != st.lastFailedLineIdx
      && SameOutsidePlaceholders(r.next.lines, st.lines, subsByLineIdx)
  {
    match TryLoad(st.lines, st.lastFailedLineIdx, loads)
    case None =>
      Done(if st.errorMsg.None? then ErrorMsgUnbound else LoadFailed(st.errorMsg.value))
    case Some(Attempt(data, failedLineIdx, msg)) =>
      if msg.None? then Done(Loaded(data.value))
      else if msg.value == "" || failedLineIdx.None? then Done(LoadFailed(msg.value))
      else Continue(LoopState(Repaired(st.lines, failedLineIdx.value, msg.value, subsByLineIdx), failedLineIdx, msg))
  }

  function RepairBody(subsByLineIdx: map<int, Substitution>, loads: string -> ParseOutcome): LoopState -> Step {
    st => RepairStep(subsByLineIdx, loads, st)
  }

  /** The repair loop of `main` from its start, allowed `fuel` calls of `_try_load`. */
  function Repair(lines: seq<string>, subsByLineIdx: map<int, Substitution>, loads: string -> ParseOutcome, fuel: nat): LoadResult {
    Iterate(LoopState(lines, None, None), RepairBody(subsByLineIdx, loads), fuel)
  }

  /** The `while result := _try_load(...)` loop of `main`, rewriting `new_lines` in place. */
  method RepairLoop(newLines: seq<string>, subsByLineIdx: map<int, Substitution>,
                    loads: string -> ParseOutcome, fuel: nat) returns (r: LoadResult)
    requires IndicesIn(subsByLineIdx, |newLines|)
    ensures r == Repair(newLines, subsByLineIdx, loads, fuel)
  {
    var lines := newLines;
    var lastFailedLineIdx: Option<int> := None;
    var errorMsg: Option<string> := None;
    var attempts := 0;
    while attempts < fuel
      invariant attempts <= fuel
      invariant |lines| == |newLines|
      invariant Repair(newLines, subsByLineIdx, loads, fuel) ==
                Iterate(LoopState(lines, lastFailedLineIdx, errorMsg), RepairBody(subsByLineIdx, loads), fuel - attempts)
    {
      ghost var st := LoopState(lines, lastFailedLineIdx, errorMsg);
      assert RepairBody(subsByLineIdx, loads)(st) == RepairStep(subsByLineIdx, loads, st);
      var result := TryLoad(lines, lastFailedLineIdx, loads);
      if result.None? {
        return if errorMsg.None? then ErrorMsgUnbound else LoadFailed(errorMsg.value);
      }
      var Attempt(data, failedLineIdx, msg) := result.value;
      lastFailedLineIdx := failedLineIdx;
      if msg.None? || msg.value == "" || failedLineIdx.None? {
        return if msg.None? then Loaded(data.value) else LoadFailed(msg.value);
      }
      var idx := failedLineIdx.value;
      if idx in subsByLineIdx {
        var sub := subsByLineIdx[idx];
        if Contains(msg.value, UnexpectedComma) {
          lines := lines[idx := InjectSubstitution(sub.originalLine, sub.id, true)];
        } else if Contains(msg.value, UnexpectedQuote) {
          lines := lines[idx := "," + lines[idx]];
        }
      }
      errorMsg := msg;
      attempts := attempts + 1;
      assert lines == Repaired(st.lines, idx, msg.value, subsByLineIdx);
      assert RepairStep(subsByLineIdx, loads, st) == Continue(LoopState(lines, lastFailedLineIdx, errorMsg));
    }
    return StillRepairing;
  }

  /** The ways a pass ends the loop: a successful parse; a failure at the line that failed
      last time, reporting the previous message (or, on the first attempt with no line
      number, leaving the message unbound); a later failure with no line number. */
  lemma RepairStops(st: LoopState, subsByLineIdx: map<int, Substitution>, loads: string -> ParseOutcome, fuel: nat)
    requires fuel > 0
    ensures var outcome := loads(JoinLines(st.lines));
      var r := Iterate(st, RepairBody(subsByLineIdx, loads), fuel);
      && (outcome.Parsed? ==> r == Loaded(outcome.doc))
      && (outcome.Rejected? && LineIdxFromError(outcome.message) == st.lastFailedLineIdx ==>
            r == (if st.errorMsg.None? then ErrorMsgUnbound else LoadFailed(st.errorMsg.value)))
      && (outcome.Rejected? && st.lastFailedLineIdx.Some? && LineIdxFromError(outcome.message).None? ==>
            r == LoadFailed(outcome.message))
  {
    assert RepairBody(subsByLineIdx, loads)(st) == RepairStep(subsByLineIdx, loads, st);
  }

  /** A first parse with no line number in its error leaves `error_msg` unbound. */
  lemma FirstFailureWithoutLine(lines: seq<string>, subsByLineIdx: map<int, Substitution>, loads: string -> ParseOutcome, fuel: nat)
    requires fuel > 0
    requires loads(JoinLines(lines)).Rejected? && LineIdxFromError(loads(JoinLines(lines)).message).None?
    ensures Repair(lines, subsByLineIdx, loads, fuel) == ErrorMsgUnbound
  {
    RepairStops(LoopState(lines, None, None), subsByLineIdx, loads, fuel);
  }

  /** More attempts never change an outcome the loop reached. */
  lemma RepairFuelMonotone(lines: seq<string>, subsByLineIdx: map<int, Substitution>, loads: string -> ParseOutcome,
                           fuel: nat, more: nat)
    requires Repair(lines, subsByLineIdx, loads, fuel) != StillRepairing
    ensures Repair(lines, subsByLineIdx, loads, fuel + more) == Repair(lines, subsByLineIdx, loads, fuel)
  {
    IterateFuelMonotone(LoopState(lines, None, None), RepairBody(subsByLineIdx, loads), fuel, more);
  }

  /** A pass keeps the lines the same outside placeholders, and ends with a document only
      when the parser accepted the text of the lines it was given. */
  ghost predicate PassKeeps(body: LoopState -> Step, subsByLineIdx: map<int, Substitution>,
                            loads: string -> ParseOutcome, s: LoopState) {
    && (body(s).Done? && body(s).result.Loaded? ==> loads(JoinLines(s.lines)) == Parsed(body(s).result.doc))
    && (body(s).Continue? ==> SameOutsidePlaceholders(body(s).next.lines, s.lines, subsByLineIdx))
  }

  /** Any loop whose passes keep to `PassKeeps` loads only the parse of lines that differ
      from its start only on placeholder lines. */
  lemma {:induction false} LoadedThroughPasses(st: LoopState, body: LoopState -> Step, subsByLineIdx: map<int, Substitution>,
                                               loads: string -> ParseOutcome, fuel: nat)
    requires forall s :: PassKeeps(body, subsByLineIdx, loads, s)
    requires Iterate(st, body, fuel).Loaded?
    ensures exists lines' :: SameOutsidePlaceholders(lines', st.lines, subsByLineIdx) &&
              loads(JoinLines(lines')) == Parsed(Iterate(st, body, fuel).doc)
    decreases fuel
  {
    var doc := Iterate(st, body, fuel).doc;
    assert PassKeeps(body, subsByLineIdx, loads, st);
    match body(st)
    case Done(_) =>
      SameOutsideRefl(st.lines, subsByLineIdx);
    case Continue(next) =>
      LoadedThroughPasses(next, body, subsByLineIdx, loads, fuel - 1);
      var lines' :| SameOutsidePlaceholders(lines', next.lines, subsByLineIdx) &&
                    loads(JoinLines(lines')) == Parsed(doc);
      SameOutsideTrans(lines', next.lines, st.lines, subsByLineIdx);
  }

  /** A document the loop loads is the parse of a text that differs from the loop's lines
      only on placeholder lines. */
  lemma LoadedFromPatchedPlaceholders(st: LoopState, subsByLineIdx: map<int, Substitution>,
                                      loads: string -> ParseOutcome, fuel: nat)
    requires Iterate(st, RepairBody(subsByLineIdx, loads), fuel).Loaded?
    ensures exists lines' :: SameOutsidePlaceholders(lines', st.lines, subsByLineIdx) &&
              loads(JoinLines(lines')) == Parsed(Iterate(st, RepairBody(subsByLineIdx, loads), fuel).doc)
  {
    var body := RepairBody(subsByLineIdx, loads);
    forall s
      ensures PassKeeps(body, subsByLineIdx, loads, s)
    {
      StepFacts(subsByLineIdx, loads, s);
    }
    LoadedThroughPasses(st, body, subsByLineIdx, loads, fuel);
  }

  /** What one pass of the loop says about the text it parsed and the lines it leaves. */
  lemma StepFacts(subsByLineIdx: map<int, Substitution>, loads: string -> ParseOutcome, st: LoopState)
    ensures var r := RepairBody(subsByLineIdx, loads)(st);
      && (r.Done? && r.result.Loaded? ==> loads(JoinLines(st.lines)) == Parsed(r.result.doc))
      && (r.Continue? ==> SameOutsidePlaceholders(r.next.lines, st.lines, subsByLineIdx))
  {
    assert RepairBody(subsByLineIdx, loads)(st) == RepairStep(subsByLineIdx, loads, st);
  }

  lemma SameOutsideRefl(a: seq<string>, subsByLineIdx: map<int, Substitution>)
    ensures SameOutsidePlaceholders(a, a, subsByLineIdx)
  {
  }

  lemma SameOutsideTrans(a: seq<string>, b: seq<string>, c: seq<string>, subsByLineIdx: map<int, Substitution>)
    requires SameOutsidePlaceholders(a, b, subsByLineIdx) && SameOutsidePlaceholders(b, c, subsByLineIdx)
    ensures SameOutsidePlaceholders(a, c, subsByLineIdx)
  {
  }

  /** An `Unexpected ","` error on a placeholder line rebuilds that line from the comment
      with `as_kvp` set, and the loop goes round again. */
  lemma CommaRepairStep(lines: seq<string>, last: Option<int>, errorMsg: Option<string>,
                        subsByLineIdx: map<int, Substitution>, loads: string -> ParseOutcome, m: string, idx: int)
    requires loads(JoinLines(lines)) == Rejected(m) && m != ""
    requires LineIdxFromError(m) == Some(idx) && last != Some(idx)
    requires idx in subsByLineIdx && 0 <= idx < |lines|
    requires Contains(m, UnexpectedComma)
    ensures var sub := subsByLineIdx[idx];
      RepairBody(subsByLineIdx, loads)(LoopState(lines, last, errorMsg)) ==
        Continue(LoopState(lines[idx := InjectSubstitution(sub.originalLine, sub.id, true)], Some(idx), Some(m)))
  {
    assert RepairBody(subsByLineIdx, loads)(LoopState(lines, last, errorMsg)) ==
           RepairStep(subsByLineIdx, loads, LoopState(lines, last, errorMsg));
  }

  /** An `Unexpected """` error (and no `Unexpected ","`) on a placeholder line puts a
      comma in front of that line, and the loop goes round again. */
  lemma QuoteRepairStep(lines: seq<string>, last: Option<int>, errorMsg: Option<string>,
                        subsByLineIdx: map<int, Substitution>, loads: string -> ParseOutcome, m: string, idx: int)
    requires loads(JoinLines(lines)) == Rejected(m) && m != ""
    requires LineIdxFromError(m) == Some(idx) && last != Some(idx)
    requires idx in subsByLineIdx && 0 <= idx < |lines|
    requires !Contains(m, UnexpectedComma) && Contains(m, UnexpectedQuote)
    ensures RepairBody(subsByLineIdx, loads)(LoopState(lines, last, errorMsg)) ==
            Continue(LoopState(lines[idx := "," + lines[idx]], Some(idx), Some(m)))
  {
    assert RepairBody(subsByLineIdx, loads)(LoopState(lines, last, errorMsg)) ==
           RepairStep(subsByLineIdx, loads, LoopState(lines, last, errorMsg));
  }

  /** The message a parser gives for an unexpected `"` on the 1-based line `n`. */
  function QuoteErrorAt(n: nat): string {
    Tag + Decimal(n) + " " + UnexpectedQuote
  }

  /** The 0-based line the alternating parser blames for a text of length `len`. */
  function Blamed(len: nat): (idx: nat)
    ensures idx < 2
  {
    if len % 2 == 0 then 0 else 1
  }

  lemma BlamedFlips(len: nat)
    ensures Blamed(len + 1) == 1 - Blamed(len)
  {
  }

  /** A parser that rejects every text, blaming line 1 when the text's length is even and
      line 2 when it is odd. */
  function AlternatingParser(): string -> ParseOutcome {
    text => Rejected(QuoteErrorAt(Blamed(|text|) + 1))
  }

  lemma QuoteErrorAtLine(n: nat)
    requires n >= 1
    ensures LineIdxFromError(QuoteErrorAt(n)) == Some(n - 1)
  {
    var rest := " " + UnexpectedQuote;
    assert QuoteErrorAt(n) == Tag + Decimal(n) + rest;
    LineIdxOfParserMessage(n, rest);
  }

  /** The message names an unexpected `"` and holds no comma at all. */
  lemma QuoteErrorKind(n: nat)
    ensures !Contains(QuoteErrorAt(n), UnexpectedComma) && Contains(QuoteErrorAt(n), UnexpectedQuote)
  {
    var m := QuoteErrorAt(n);
    assert OccursAt(m, UnexpectedQuote, |m| - |UnexpectedQuote|);
    assert ',' !in Tag && ',' !in " " + UnexpectedQuote && ',' !in Decimal(n);
    assert ',' !in m;
    ContainsIffOccurs(m, UnexpectedComma);
    ContainsIffOccurs(m, UnexpectedQuote);
    forall i | 0 <= i && i + |UnexpectedComma| <= |m|
      ensures !OccursAt(m, UnexpectedComma, i)
    {
      assert m[i..i + |UnexpectedComma|][12] == m[i + 12];
    }
  }

  /** Two lines joined with a newline are one character longer than the two together. */
  lemma JoinTwoLength(a: string, b: string)
    ensures |JoinLines([a, b])| == |a| + |b| + 1
  {
    assert [a, b][1..] == [b];
    assert JoinWith("\n", [b]) == b;
  }

  /** `m` is an error the quote repair acts on, naming the 0-based line `idx`. */
  predicate QuoteErrorOn(m: string, idx: int) {
    m != "" && LineIdxFromError(m) == Some(idx) && !Contains(m, UnexpectedComma) && Contains(m, UnexpectedQuote)
  }

  /** `msgs[k]` is a quote error naming line `k`. */
  predicate QuoteErrorsByLine(msgs: seq<string>) {
    forall k :: 0 <= k < |msgs| ==> QuoteErrorOn(msgs[k], k)
  }

  lemma QuoteErrorOnLine(n: nat)
    requires n >= 1
    ensures QuoteErrorOn(QuoteErrorAt(n), n - 1)
  {
    QuoteErrorAtLine(n);
    QuoteErrorKind(n);
  }

  /** The alternating parser's two messages, for line 1 and line 2. */
  function QuoteErrors(): seq<string> {
    seq(2, (k: nat) => QuoteErrorAt(k + 1))
  }

  lemma QuoteErrorsOnBothLines()
    ensures QuoteErrorsByLine(QuoteErrors())
  {
    QuoteErrorsFrom(QuoteErrors());
  }

  lemma QuoteErrorsFrom(msgs: seq<string>)
    requires forall k :: 0 <= k < |msgs| ==> msgs[k] == QuoteErrorAt(k + 1)
    ensures QuoteErrorsByLine(msgs)
  {
    forall k | 0 <= k < |msgs|
      ensures QuoteErrorOn(msgs[k], k)
    {
      QuoteErrorOnLine(k + 1);
    }
  }

  /** Rejects every text with the error `msgs[Blamed(|text|)]`: the first message when the
      text's length is even and the second when it is odd. */
  ghost predicate Alternates(loads: string -> ParseOutcome, msgs: seq<string>) {
    |msgs| == 2 &&
    forall text {:trigger loads(text)} :: loads(text) == Rejected(msgs[Blamed(|text|)])
  }

  /** Two lines, and the line that failed last (if any) is the one an alternating parser
      does not blame for their text. */
  predicate AlternationState(st: LoopState) {
    |st.lines| == 2 &&
    (st.lastFailedLineIdx.None? || st.lastFailedLineIdx == Some(1 - Blamed(|st.lines[0]| + |st.lines[1]| + 1)))
  }

  /** The state after a pass against an alternating parser: the blamed line has a comma
      in front, and it is the line that failed last. */
  function NextAlternation(st: LoopState, msgs: seq<string>): LoopState
    requires |st.lines| == 2 && |msgs| == 2
  {
    var idx := Blamed(|st.lines[0]| + |st.lines[1]| + 1);
    LoopState(st.lines[idx := "," + st.lines[idx]], Some(idx), Some(msgs[idx]))
  }

  /** The comma makes the text one longer, so the next pass blames the other line. */
  lemma NextAlternationKeeps(st: LoopState, msgs: seq<string>)
    requires AlternationState(st) && |msgs| == 2
    ensures AlternationState(NextAlternation(st, msgs))
  {
    var next := NextAlternation(st, msgs);
    assert |next.lines[0]| + |next.lines[1]| == |st.lines[0]| + |st.lines[1]| + 1;
    BlamedFlips(|st.lines[0]| + |st.lines[1]| + 1);
  }

  /** The quote repair on a state whose text the parser rejects with `m`. */
  lemma QuoteRepairOn(subsByLineIdx: map<int, Substitution>, loads: string -> ParseOutcome, st: LoopState,
                      m: string, idx: int)
    requires loads(JoinLines(st.lines)) == Rejected(m) && QuoteErrorOn(m, idx)
    requires st.lastFailedLineIdx != Some(idx) && idx in subsByLineIdx && 0 <= idx < |st.lines|
    ensures RepairBody(subsByLineIdx, loads)(st) ==
            Continue(LoopState(st.lines[idx := "," + st.lines[idx]], Some(idx), Some(m)))
  {
    assert st == LoopState(st.lines, st.lastFailedLineIdx, st.errorMsg);
    QuoteRepairStep(st.lines, st.lastFailedLineIdx, st.errorMsg, subsByLineIdx, loads, m, idx);
  }

  /** The quote repair of the blamed line, when the parser's message is the one for it. */
  lemma AlternatingRepair(subsByLineIdx: map<int, Substitution>, loads: string -> ParseOutcome,
                          msgs: seq<string>, st: LoopState)
    requires AlternationState(st) && |msgs| == 2
    requires var idx := Blamed(|st.lines[0]| + |st.lines[1]| + 1);
      && loads(JoinLines(st.lines)) == Rejected(msgs[idx]) && QuoteErrorOn(msgs[idx], idx)
      && idx in subsByLineIdx
    ensures RepairBody(subsByLineIdx, loads)(st) == Continue(NextAlternation(st, msgs))
  {
    var idx := Blamed(|st.lines[0]| + |st.lines[1]| + 1);
    QuoteRepairOn(subsByLineIdx, loads, st, msgs[idx], idx);
  }

  /** What an alternating parser says about two lines. */
  lemma AlternatingParse(loads: string -> ParseOutcome, msgs: seq<string>, st: LoopState)
    requires Alternates(loads, msgs)
    requires |st.lines| == 2
    ensures loads(JoinLines(st.lines)) == Rejected(msgs[Blamed(|st.lines[0]| + |st.lines[1]| + 1)])
  {
    var a, b := st.lines[0], st.lines[1];
    assert st.lines == [a, b];
    JoinTwoLength(a, b);
  }

  /** One pass against an alternating parser on two placeholder lines. */
  lemma AlternationKept(subsByLineIdx: map<int, Substitution>, loads: string -> ParseOutcome,
                        msgs: seq<string>, st: LoopState)
    requires 0 in subsByLineIdx && 1 in subsByLineIdx
    requires QuoteErrorsByLine(msgs) && Alternates(loads, msgs)
    requires AlternationState(st)
    ensures RepairBody(subsByLineIdx, loads)(st) == Continue(NextAlternation(st, msgs))
  {
    var idx := Blamed(|st.lines[0]| + |st.lines[1]| + 1);
    AlternatingParse(loads, msgs, st);
    AlternatingRepair(subsByLineIdx, loads, msgs, st);
  }

  /** Against an alternating parser, two placeholder lines are rewritten for ever. */
  lemma {:induction false} AlternationNeverSettles(subsByLineIdx: map<int, Substitution>, loads: string -> ParseOutcome,
                                                  msgs: seq<string>, st: LoopState, fuel: nat)
    requires 0 in subsByLineIdx && 1 in subsByLineIdx
    requires QuoteErrorsByLine(msgs) && Alternates(loads, msgs)
    requires AlternationState(st)
    ensures Iterate(st, RepairBody(subsByLineIdx, loads), fuel) == StillRepairing
  {
    var body := RepairBody(subsByLineIdx, loads);
    forall s | AlternationState(s)
      ensures body(s).Continue? && AlternationState(body(s).next)
    {
      AlternationKept(subsByLineIdx, loads, msgs, s);
      NextAlternationKeeps(s, msgs);
    }
    IterateNeverStops(st, body, AlternationState, fuel);
  }

  /** The loop is only stopped by the same line failing twice in a row, a successful
      parse or an error without a message or line number: on a file of two comment lines,
      a parser whose blamed line alternates keeps `main` rewriting the two placeholders
      however many attempts are allowed, so nothing is ever written. Each pass puts a
      comma in front of the blamed line, which flips the length of the text and so the
      line blamed next. */
  lemma AlternatingFailuresNeverSettle(u: Id, v: Id, listPath: string, keyPath: string,
                                       dumps: Value -> seq<string>, fuel: nat)
    ensures CommentCount(["// a", "// b"]) <= |[u, v]|
    ensures Pipeline(["// a", "// b"], [u, v], listPath, keyPath, AlternatingParser(), dumps, fuel) == Failure(RepairUnsettled)
  {
    var oldLines := ["// a", "// b"];
    assert IsCommentedLine(oldLines[0]) && IsCommentedLine(oldLines[1]);
    assert oldLines[..1] == ["// a"] && oldLines[..0] == [];
    var t := Sanitised(oldLines, [u, v]);
    SanitisedLine(oldLines, [u, v], 0);
    SanitisedLine(oldLines, [u, v], 1);
    var msgs := QuoteErrors();
    QuoteErrorsOnBothLines();
    assert Alternates(AlternatingParser(), msgs);
    AlternationNeverSettles(t.subsByLineIdx, AlternatingParser(), msgs, LoopState(t.lines, None, None), fuel);
  }

  // ---------------------------------------------------------------------------
  // Sort transform

  /** The key `__key` gives an element: for a dict, the case-folded `str()` of the value at
      the dotted key path (`None`: the lookup raised); anything else sorts as "". */
  function SortKey(item: Value, keyPath: string): Option<string> {
    if item.Obj? then
      match GetByPath(item, SplitOn(keyPath, '.'))
      case None => None
      case Some(v) => Some(Casefold(PyStr(v)))
    else
      Some("")
  }

  /** A dict whose first key segment is missing sorts under `str({})`, that is `{}`, and an
      element that is not a dict sorts under the empty string, before everything. */
  lemma SortKeyDefaults(item: Value, keyPath: string)
    ensures !item.Obj? ==> SortKey(item, keyPath) == Some("")
    ensures item.Obj? && Lookup(item.members, SplitOn(keyPath, '.')[0]).None? ==>
              SortKey(item, keyPath) == Some("{}")
  {
    var path := SplitOn(keyPath, '.');
    if item.Obj? && Lookup(item.members, path[0]).None? {
      assert GetOrEmpty(item.members, path[0]) == Obj([]);
      EmptyObjectAbsorbs(path[1..]);
      assert GetByPath(item, path) == Some(Obj([]));
      assert PyStr(Obj([])) == "{}";
      assert Casefold("{}") == "{}";
    }
  }

  function KeyFn(keyPath: string): Value -> string {
    item => SortKey(item, keyPath).GetOr("")
  }

  predicate KeysDefined(items: seq<Value>, keyPath: string) {
    forall i :: 0 <= i < |items| ==> SortKey(items[i], keyPath).Some?
  }

  /** `_sort_in_place`: `list.sort` computes every key first; if one raises, the list is
      left as it was; otherwise the list is sorted stably by key. */
  method SortListInPlace(a: array<Value>, keyPath: string) returns (ok: bool)
    modifies a
    ensures ok == KeysDefined(old(a[..]), keyPath)
    ensures ok ==> a[..] == StableSort(old(a[..]), KeyFn(keyPath))
    ensures !ok ==> a[..] == old(a[..])
  {
    for i := 0 to a.Length
      invariant forall j :: 0 <= j < i ==> SortKey(a[j], keyPath).Some?
    {
      if SortKey(a[i], keyPath).None? {
        return false;
      }
    }
    SortInPlace(a, KeyFn(keyPath));
    return true;
  }

  /** The checks of `main` after loading, then the sort of the list at `list_path`, which
      the document holds (the list is sorted where it is). */
  function SortDocument(data: Value, listPath: string, keyPath: string): Result<Value, NoWrite> {
    if !Truthy(data) then Failure(NoData)
    else if !data.Obj? then Failure(NotAnObject)
    else
      var path := SplitOn(listPath, '.');
      match GetByPath(data, path)
      case None => Failure(PathThroughNonDict)
      case Some(found) =>
        if !found.Arr? then Failure(NotAList(listPath))
        else if !KeysDefined(found.items, keyPath) then Failure(PathThroughNonDict)
        else
          ListAtPathIsInDocument(data, path);
          Success(SetByPath(data, path, Arr(StableSort(found.items, KeyFn(keyPath)))))
  }

  /** No write on falsy data, on a top level that is not a dict, on a path that does not
      lead to a list; otherwise the list at the path is replaced by a sorted permutation of
      itself in which equal keys keep their order, and every value off the path is as it
      was. */
  lemma SortDocumentSorts(data: Value, listPath: string, keyPath: string)
    ensures !Truthy(data) ==> SortDocument(data, listPath, keyPath) == Failure(NoData)
    ensures Truthy(data) && !data.Obj? ==> SortDocument(data, listPath, keyPath) == Failure(NotAnObject)
    ensures var found := GetByPath(data, SplitOn(listPath, '.'));
      Truthy(data) && data.Obj? && found.Some? && !found.value.Arr? ==>
        SortDocument(data, listPath, keyPath) == Failure(NotAList(listPath))
    ensures var path := SplitOn(listPath, '.');
      SortDocument(data, listPath, keyPath).Success? ==>
        var before := GetByPath(data, path).value.items;
        var after := GetByPath(SortDocument(data, listPath, keyPath).value, path);
        && after.Some? && after.value.Arr?
        && SortedByKey(after.value.items, KeyFn(keyPath))
        && multiset(after.value.items) == multiset(before)
        && (forall k :: WithKey(after.value.items, KeyFn(keyPath), k) == WithKey(before, KeyFn(keyPath), k))
    ensures var path := SplitOn(listPath, '.');
      SortDocument(data, listPath, keyPath).Success? ==>
        forall p :: OffPath(p, path) ==> GetByPath(SortDocument(data, listPath, keyPath).value, p) == GetByPath(data, p)
  {
    var path := SplitOn(listPath, '.');
    if SortDocument(data, listPath, keyPath).Success? {
      var before := GetByPath(data, path).value.items;
      ListAtPathIsInDocument(data, path);
      GetAfterSet(data, path, Arr(StableSort(before, KeyFn(keyPath))));
      SetOffPath(data, path, Arr(StableSort(before, KeyFn(keyPath))));
      StableSortCorrect(before, KeyFn(keyPath));
    }
  }

  // ---------------------------------------------------------------------------
  // Reversal

  /** One serialised line: if it starts (after whitespace) with `"` and a UUID that names a
      substitution, it becomes that substitution's original line; otherwise it stays. */
  function RestoreLine(line: string, subs: map<Id, Substitution>): (r: string)
    ensures r == line || exists u :: u in subs && r == subs[u].originalLine
    ensures r != line ==> MatchUuidOnLine(line).Some? && MatchUuidOnLine(line).value in subs
    ensures r != line ==> r == subs[MatchUuidOnLine(line).value].originalLine
  {
    match MatchUuidOnLine(line)
    case Some(u) => if u in subs then subs[u].originalLine else line
    case None => line
  }

  function RestoredLines(lines: seq<string>, subs: map<Id, Substitution>): seq<string> {
    seq(|lines|, i requires 0 <= i < |lines| => RestoreLine(lines[i], subs))
  }

  /** `_reverse_substitutions`: serialise, restore line by line, join with newlines. */
  method ReverseSubstitutions(data: Value, subs: map<Id, Substitution>, dumps: Value -> seq<string>)
    returns (text: string)
    ensures text == JoinLines(RestoredLines(dumps(data), subs))
  {
    var subLines := dumps(data);
    var newLines: seq<string> := [];
    for i := 0 to |subLines|
      invariant newLines == RestoredLines(subLines[..i], subs)
    {
      var line := subLines[i];
      var found := MatchUuidOnLine(line);
      if found.Some? {
        var subId := found.value;
        if subId in subs {
          var sub := subs[subId];
          line := sub.originalLine;
        }
      }
      newLines := newLines + [line];
    }
    assert subLines[..|subLines|] == subLines;
    text := JoinLines(newLines);
  }

  /** A serialised line that is indentation, `"` and the id of a substitution becomes that
      substitution's original line, byte for byte. */
  lemma RestoreQuotedId(ws: string, sub: Substitution, rest: string, subs: map<Id, Substitution>)
    requires AllSpace(ws)
    requires sub.id in subs && subs[sub.id] == sub
    ensures RestoreLine(ws + "\"" + sub.id + rest, subs) == sub.originalLine
  {
    MatchFindsQuotedId(ws, sub.id, rest);
  }

  /** A serialised line that is indentation, `"` and 36 more characters: when those fit the
      UUID pattern, in either case, and name a substitution, the line becomes its original
      line; otherwise (a malformed id, or a well-formed one that names no substitution) it
      is kept. */
  lemma RestoreQuoted(ws: string, s: string, rest: string, subs: map<Id, Substitution>)
    requires AllSpace(ws) && |s| == 36
    ensures MatchesUuidPattern(s) && Canonicalise(s) in subs ==>
              RestoreLine(ws + "\"" + s + rest, subs) == subs[Canonicalise(s)].originalLine
    ensures !(MatchesUuidPattern(s) && Canonicalise(s) in subs) ==>
              RestoreLine(ws + "\"" + s + rest, subs) == ws + "\"" + s + rest
  {
    MatchQuoted(ws, s, rest);
  }

  /** The round trip: a comment line of the input, sanitised (or rebuilt by the repair
      loop with `as_kvp` set) and indented by the serialiser, is restored exactly. */
  lemma CommentRoundTrip(oldLines: seq<string>, ids: seq<Id>, i: nat, ws: string, asKvp: bool)
    requires CommentCount(oldLines) <= |ids| && DistinctIds(ids)
    requires i < |oldLines| && IsCommentedLine(oldLines[i])
    requires AllSpace(ws)
    ensures CommentCount(oldLines[..i]) < |ids|
    ensures var id := ids[CommentCount(oldLines[..i])];
      RestoreLine(ws + InjectSubstitution(oldLines[i], id, asKvp), Sanitised(oldLines, ids).subs) == oldLines[i]
  {
    var t := Sanitised(oldLines, ids);
    SanitisedLine(oldLines, ids, i);
    SanitisedLineById(oldLines, ids, i);
    var sub := t.subsByLineIdx[i];
    var placeholder := InjectSubstitution(oldLines[i], sub.id, asKvp);
    var rest := placeholder[|"\"" + sub.id|..];
    assert placeholder == "\"" + sub.id + rest;
    assert ws + placeholder == ws + "\"" + sub.id + rest;
    RestoreQuotedId(ws, sub, rest, t.subs);
  }

  /** Every line of the output is either the serialiser's line or an original comment line. */
  lemma RestoredLinesShape(serialised: seq<string>, oldLines: seq<string>, ids: seq<Id>)
    requires CommentCount(oldLines) <= |ids|
    ensures var out := RestoredLines(serialised, Sanitised(oldLines, ids).subs);
      && |out| == |serialised|
      && (forall p :: 0 <= p < |out| ==>
            out[p] == serialised[p] || exists i :: 0 <= i < |oldLines| && IsCommentedLine(oldLines[i]) && out[p] == oldLines[i])
  {
    var t := Sanitised(oldLines, ids);
    var out := RestoredLines(serialised, t.subs);
    forall p | 0 <= p < |out| && out[p] != serialised[p]
      ensures exists i :: 0 <= i < |oldLines| && IsCommentedLine(oldLines[i]) && out[p] == oldLines[i]
    {
      var u :| u in t.subs && out[p] == t.subs[u].originalLine;
      SanitisedById(oldLines, ids, u);
    }
  }

  // ---------------------------------------------------------------------------
  // main

  /** Why `main` returns without writing the file. `PathThroughNonDict` is the AttributeError
      `_get_by_path` raises when a path step meets something that is not a dict;
      `UnboundErrorMessage` the UnboundLocalError of a first parse failing with no line number;
      `RepairUnsettled` a repair loop still running when its attempts ran out. */
  datatype NoWrite =
    | LoadError(message: string)
    | NoData
    | NotAnObject
    | NotAList(listPath: string)
    | PathThroughNonDict
    | UnboundErrorMessage
    | RepairUnsettled

  /** What `main` does with the lines of the file: the text it writes, or why it writes none. */
  function Pipeline(oldLines: seq<string>, ids: seq<Id>, listPath: string, keyPath: string,
                    loads: string -> ParseOutcome, dumps: Value -> seq<string>, fuel: nat): Result<string, NoWrite>
    requires CommentCount(oldLines) <= |ids|
  {
    var t := Sanitised(oldLines, ids);
    match Repair(t.lines, t.subsByLineIdx, loads, fuel)
    case StillRepairing => Failure(RepairUnsettled)
    case ErrorMsgUnbound => Failure(UnboundErrorMessage)
    case LoadFailed(m) => if m != "" then Failure(LoadError(m)) else Failure(NoData)
    case Loaded(data) =>
      match SortDocument(data, listPath, keyPath)
      case Failure(e) => Failure(e)
      case Success(sorted) => Success(JoinLines(RestoredLines(dumps(sorted), t.subs)))
  }

  /** `main` writes nothing when a load error message remains, when the data is falsy, when
      the top level is not a dict, or when the value at `list_path` is not a list. When it
      writes, the text is the restored serialisation of the loaded document with its list
      sorted in place. */
  lemma {:induction false} PipelineWrites(oldLines: seq<string>, ids: seq<Id>, listPath: string, keyPath: string,
                                          loads: string -> ParseOutcome, dumps: Value -> seq<string>, fuel: nat)
    requires CommentCount(oldLines) <= |ids|
    ensures var t := Sanitised(oldLines, ids);
      var loaded := Repair(t.lines, t.subsByLineIdx, loads, fuel);
      var r := Pipeline(oldLines, ids, listPath, keyPath, loads, dumps, fuel);
      && (loaded.LoadFailed? ==> r.Failure?)
      && (loaded.Loaded? && !Truthy(loaded.doc) ==> r == Failure(NoData))
      && (loaded.Loaded? && Truthy(loaded.doc) && !loaded.doc.Obj? ==> r == Failure(NotAnObject))
      && ((loaded.Loaded? && loaded.doc.Obj? && Truthy(loaded.doc) &&
           GetByPath(loaded.doc, SplitOn(listPath, '.')).Some? &&
           !GetByPath(loaded.doc, SplitOn(listPath, '.')).value.Arr?) ==> r == Failure(NotAList(listPath)))
      && (r.Success? <==> loaded.Loaded? && SortDocument(loaded.doc, listPath, keyPath).Success?)
      && (r.Success? ==> r.value == JoinLines(RestoredLines(dumps(SortDocument(loaded.doc, listPath, keyPath).value), t.subs)))
  {
    var t := Sanitised(oldLines, ids);
    var loaded := Repair(t.lines, t.subsByLineIdx, loads, fuel);
    if loaded.Loaded? {
      SortDocumentSorts(loaded.doc, listPath, keyPath);
    }
  }

  /** `main`, on the lines `read_text().splitlines()` gives: the text `write_text` would be
      given, or the reason nothing is written. */
  method Run(oldLines: seq<string>, ids: seq<Id>, listPath: string, keyPath: string,
             loads: string -> ParseOutcome, dumps: Value -> seq<string>, fuel: nat)
    returns (result: Result<string, NoWrite>)
    requires CommentCount(oldLines) <= |ids|
    ensures result == Pipeline(oldLines, ids, listPath, keyPath, loads, dumps, fuel)
  {
    var newLines, subs, subsByLineIdx := Sanitise(oldLines, ids);
    var loaded := RepairLoop(newLines, subsByLineIdx, loads, fuel);
    var data: Value;
    match loaded {
      case StillRepairing => return Failure(RepairUnsettled);
      case ErrorMsgUnbound => return Failure(UnboundErrorMessage);
      case LoadFailed(m) => return Failure(if m != "" then LoadError(m) else NoData);
      case Loaded(d) => data := d;
    }
    if !Truthy(data) {
      return Failure(NoData);
    }
    if !data.Obj? {
      return Failure(NotAnObject);
    }
    var path := SplitOn(listPath, '.');
    var found := LookupPath(data, path);
    if found.None? {
      return Failure(PathThroughNonDict);
    }
    var dataList := found.value;
    if !dataList.Arr? {
      return Failure(NotAList(listPath));
    }
    var items := dataList.items;
    var a := new Value[|items|](i requires 0 <= i < |items| => items[i]);
    assert a[..] == items;
    var ok := SortListInPlace(a, keyPath);
    if !ok {
      return Failure(PathThroughNonDict);
    }
    ListAtPathIsInDocument(data, path);
    var sorted := SetByPath(data, path, Arr(a[..]));
    var text := ReverseSubstitutions(sorted, subs, dumps);
    return Success(text);
  }
}
