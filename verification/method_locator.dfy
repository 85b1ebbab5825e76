/**
 The method locator of `TestCodeValidator.fetchBody`: a line-driven scan of a
 Java source file that finds a method by its declaration line and collects its
 body by counting brace-bearing lines.

 The file is a sequence of lines with their terminators stripped. The scan is a
 fold of `Step` over the lines; `Stop` is the `break` that ends it early.
 Alongside the fold, `Extracted` defines the same result directly from the
 lines (first declaration line, first `{` line, first closing line), and
 the contract of `FetchBody` states that the two agree on every input.
 */
module MethodLocator {
  import opened Wrappers
  import opened Text

  /** A line declares method `name` with one of the three accepted return types. */
  predicate IsSignatureLine(line: string, name: string)
  {
    || Contains(line, "public CustomResponse " + name + "(")
    || Contains(line, "public String " + name + "(")
    || Contains(line, "public Response " + name + "(")
  }

  /** The line holds at least one `{`. */
  predicate Opens(line: string)
  {
    '{' in line
  }

  /** The line holds at least one `}`. */
  predicate Closes(line: string)
  {
    '}' in line
  }

  /** How one line moves the brace counter: by brace-bearing lines, not by braces. */
  function Delta(line: string): int
  {
    (if Opens(line) then 1 else 0) - (if Closes(line) then 1 else 0)
  }

  /** The state of the scan: declaration seen (sticky), inside the body, brace counter, lines collected. */
  datatype Scan = Scan(found: bool, inBody: bool, depth: int, body: string)

  const Start: Scan := Scan(false, false, 0, "")

  /** The outcome of one line: keep reading, or stop after this line. */
  datatype Step = Continue(state: Scan) | Stop(state: Scan)

  /** One iteration of the read loop. */
  function StepLine(st: Scan, line: string, name: string): (r: Step)
    requires st.inBody ==> st.found
    ensures r.state.inBody ==> r.state.found
    ensures r.state.found == (st.found || IsSignatureLine(line, name))
    ensures !r.state.found ==> r == Continue(st)
    ensures r.state.found ==> r.state.depth == st.depth + Delta(line)
    ensures r.state.inBody == (st.inBody || (r.state.found && Opens(line)))
    ensures r.state.body == (if r.state.inBody then st.body + line + "\n" else st.body)
    ensures r.Stop? <==> (r.state.found && Closes(line) && r.state.depth == 0)
  {
    var found := st.found || IsSignatureLine(line, name);
    if !found then Continue(st)
    else
      var inBody := st.inBody || Opens(line);
      var raised := if Opens(line) then st.depth + 1 else st.depth;
      var body := if inBody then st.body + line + "\n" else st.body;
      if Closes(line) then
        var closed := raised - 1;
        if closed == 0 then Stop(Scan(found, inBody, closed, body))
        else Continue(Scan(found, inBody, closed, body))
      else Continue(Scan(found, inBody, raised, body))
  }

  /** The read loop from line `k` on, in state `st`. */
  function Run(lines: seq<string>, name: string, k: nat, st: Scan): Scan
    requires k <= |lines|
    requires st.inBody ==> st.found
    decreases |lines| - k
  {
    if k == |lines| then st
    else
      match StepLine(st, lines[k], name)
      case Stop(last) => last
      case Continue(next) => Run(lines, name, k + 1, next)
  }

  /**
   `fetchBody`: the text collected by the read loop over the whole file. On
   every file and name it is the directly defined body `Extracted`.
   */
  function FetchBody(lines: seq<string>, name: string): (r: string)
    ensures r == Extracted(lines, name)
  {
    RunMatches(lines, name, 0, Start);
    Run(lines, name, 0, Start).body
  }

  // ---------------------------------------------------------------------------
  // The same result, defined directly from the lines.
  // ---------------------------------------------------------------------------

  /** The brace counter after lines `f` up to (not including) `k`, starting from 0 at `f`. */
  function Depth(lines: seq<string>, f: nat, k: nat): int
    requires f <= k <= |lines|
    decreases k - f
  {
    if k == f then 0 else Depth(lines, f, k - 1) + Delta(lines[k - 1])
  }

  /** Line `j` ends the scan that started at declaration line `f`: it holds `}` and brings the counter to 0. */
  predicate IsClose(lines: seq<string>, f: nat, j: nat)
    requires f <= j < |lines|
  {
    Closes(lines[j]) && Depth(lines, f, j + 1) == 0
  }

  /** `f` is the first declaration line of `name`. */
  predicate IsFirstSignature(lines: seq<string>, name: string, f: nat)
  {
    && f < |lines|
    && IsSignatureLine(lines[f], name)
    && forall i :: 0 <= i < f ==> !IsSignatureLine(lines[i], name)
  }

  /** `s` is the first `{`-bearing line at or after line `f`. */
  predicate IsFirstOpen(lines: seq<string>, f: nat, s: nat)
  {
    && f <= s < |lines|
    && Opens(lines[s])
    && forall i :: f <= i < s ==> !Opens(lines[i])
  }

  /** The first declaration line of `name` at or after `from`. */
  function FirstSignature(lines: seq<string>, name: string, from: nat): (r: Option<nat>)
    requires from <= |lines|
    ensures r.Some? ==> from <= r.value < |lines| && IsSignatureLine(lines[r.value], name)
    ensures r.Some? ==> forall i :: from <= i < r.value ==> !IsSignatureLine(lines[i], name)
    ensures r.None? ==> forall i :: from <= i < |lines| ==> !IsSignatureLine(lines[i], name)
    decreases |lines| - from
  {
    if from == |lines| then None
    else if IsSignatureLine(lines[from], name) then Some(from)
    else FirstSignature(lines, name, from + 1)
  }

  /** The first `{`-bearing line at or after `from`. */
  function FirstOpen(lines: seq<string>, from: nat): (r: Option<nat>)
    requires from <= |lines|
    ensures r.Some? ==> IsFirstOpen(lines, from, r.value)
    ensures r.None? ==> forall i :: from <= i < |lines| ==> !Opens(lines[i])
    decreases |lines| - from
  {
    if from == |lines| then None
    else if Opens(lines[from]) then Some(from)
    else FirstOpen(lines, from + 1)
  }

  /** The first line at or after `from` that ends the scan started at declaration line `f`. */
  function FirstClose(lines: seq<string>, f: nat, from: nat): (r: Option<nat>)
    requires f <= from <= |lines|
    ensures r.Some? ==> from <= r.value < |lines| && IsClose(lines, f, r.value)
    ensures r.Some? ==> forall j :: from <= j < r.value ==> !IsClose(lines, f, j)
    ensures r.None? ==> forall j :: from <= j < |lines| ==> !IsClose(lines, f, j)
    decreases |lines| - from
  {
    if from == |lines| then None
    else if IsClose(lines, f, from) then Some(from)
    else FirstClose(lines, f, from + 1)
  }

  /** Before the first `{`-bearing line the counter can only have gone down. */
  lemma {:induction false} NoOpenNonPositive(lines: seq<string>, f: nat, k: nat)
    requires f <= k <= |lines|
    requires forall i :: f <= i < k ==> !Opens(lines[i])
    ensures Depth(lines, f, k) <= 0
    decreases k - f
  {
    if k > f {
      NoOpenNonPositive(lines, f, k - 1);
    }
  }

  /** A closing line always comes at or after the first `{`-bearing line. */
  lemma OpenBeforeClose(lines: seq<string>, f: nat, j: nat)
    requires f <= j < |lines| && IsClose(lines, f, j)
    ensures FirstOpen(lines, f).Some? && FirstOpen(lines, f).value <= j
  {
    if FirstOpen(lines, f).None? || FirstOpen(lines, f).value > j {
      NoOpenNonPositive(lines, f, j);
      assert false;
    }
  }

  /** One past the last line the scan started at declaration line `f` reads. */
  function CloseEnd(lines: seq<string>, f: nat): (e: nat)
    requires f <= |lines|
    ensures e <= |lines|
    ensures FirstOpen(lines, f).Some? ==> FirstOpen(lines, f).value < e
  {
    match FirstClose(lines, f, f)
    case None => |lines|
    case Some(j) => OpenBeforeClose(lines, f, j); j + 1
  }

  /**
   The method body as a contiguous run of lines: from the first `{`-bearing
   line at or after the first declaration line, through the first closing line
   (or the end of the file), each followed by a newline; empty when there is no
   declaration line or no `{` after it.
   */
  function Extracted(lines: seq<string>, name: string): string
  {
    match FirstSignature(lines, name, 0)
    case None => ""
    case Some(f) =>
      match FirstOpen(lines, f)
      case None => ""
      case Some(s) => Unlines(lines[s..CloseEnd(lines, f)])
  }

  /** The state the read loop is in after lines `f..k`, once declaration line `f` has been seen. */
  function Expected(lines: seq<string>, f: nat, k: nat): (st: Scan)
    requires f <= k <= |lines|
    ensures st.found
  {
    var open := FirstOpen(lines, f);
    var inBody := open.Some? && open.value < k;
    Scan(true, inBody, Depth(lines, f, k), if inBody then Unlines(lines[open.value..k]) else "")
  }

  /** Reading line `k` moves the loop from `Expected(.., k)` to `Expected(.., k + 1)`, stopping exactly at a closing line. */
  lemma ExpectedStep(lines: seq<string>, name: string, f: nat, k: nat)
    requires f <= k < |lines|
    ensures StepLine(Expected(lines, f, k), lines[k], name).state == Expected(lines, f, k + 1)
    ensures StepLine(Expected(lines, f, k), lines[k], name).Stop? <==> IsClose(lines, f, k)
  {
    var st := Expected(lines, f, k);
    var r := StepLine(st, lines[k], name);
    var next := Expected(lines, f, k + 1);
    var open := FirstOpen(lines, f);
    assert r.state.depth == next.depth;
    if Opens(lines[k]) && !st.inBody {
      assert open.Some? && open.value == k;
    }
    assert r.state.inBody == next.inBody;
    if r.state.inBody {
      UnlinesExtend(lines, open.value, k);
    }
    assert r.state.body == next.body;
  }

  /** On a declaration line, the start state behaves like a state that has already seen the declaration. */
  lemma StartOnSignature(line: string, name: string)
    requires IsSignatureLine(line, name)
    ensures StepLine(Start, line, name) == StepLine(Scan(true, false, 0, ""), line, name)
  {
  }

  /** What the read loop has built after lines `..k`, if it has not stopped yet. */
  ghost predicate Inv(lines: seq<string>, name: string, k: nat, st: Scan)
    requires k <= |lines|
  {
    match FirstSignature(lines, name, 0)
    case None => st == Start
    case Some(f) =>
      if k <= f then st == Start
      else
        && st == Expected(lines, f, k)
        && (FirstClose(lines, f, f).None? || FirstClose(lines, f, f).value >= k)
  }

  /** One step of the loop keeps `Inv`, or stops with the directly defined body. */
  lemma StepKeepsInv(lines: seq<string>, name: string, k: nat, st: Scan)
    requires k < |lines| && Inv(lines, name, k, st)
    requires st.inBody ==> st.found
    ensures StepLine(st, lines[k], name).Continue? ==> Inv(lines, name, k + 1, StepLine(st, lines[k], name).state)
    ensures StepLine(st, lines[k], name).Stop? ==> StepLine(st, lines[k], name).state.body == Extracted(lines, name)
  {
    match FirstSignature(lines, name, 0)
    case None =>
    case Some(f) =>
      if k >= f {
        if k == f {
          StartOnSignature(lines[k], name);
          assert Expected(lines, f, k) == Scan(true, false, 0, "");
        }
        ExpectedStep(lines, name, f, k);
        var r := StepLine(st, lines[k], name);
        if r.Stop? {
          assert FirstClose(lines, f, f) == Some(k);
          OpenBeforeClose(lines, f, k);
        }
      }
  }

  /** From any state satisfying `Inv`, the loop finishes with the directly defined body. */
  lemma {:induction false} RunMatches(lines: seq<string>, name: string, k: nat, st: Scan)
    requires k <= |lines| && Inv(lines, name, k, st)
    requires st.inBody ==> st.found
    ensures Run(lines, name, k, st).body == Extracted(lines, name)
    decreases |lines| - k
  {
    if k < |lines| {
      StepKeepsInv(lines, name, k, st);
      match StepLine(st, lines[k], name)
      case Stop(last) =>
      case Continue(next) => RunMatches(lines, name, k + 1, next);
    }
  }

  // ---------------------------------------------------------------------------
  // Properties of fetchBody.
  // ---------------------------------------------------------------------------

  /** No declaration line: the result is empty. */
  lemma FetchBodyNoSignature(lines: seq<string>, name: string)
    requires forall i :: 0 <= i < |lines| ==> !IsSignatureLine(lines[i], name)
    ensures FetchBody(lines, name) == ""
  {
  }

  /** No `{` on the declaration line or any later line: the result is empty. */
  lemma FetchBodyNoOpenBrace(lines: seq<string>, name: string, f: nat)
    requires IsFirstSignature(lines, name, f)
    requires forall i :: f <= i < |lines| ==> !Opens(lines[i])
    ensures FetchBody(lines, name) == ""
  {
    assert FirstSignature(lines, name, 0) == Some(f);
  }

  /**
   With a first closing line `j`: the result is lines `s` through `j`, each with
   a newline, where `s` is the first `{`-bearing line at or after the
   declaration; the closing line is included and nothing after it.
   */
  lemma FetchBodyStopsAtClose(lines: seq<string>, name: string, f: nat, s: nat, j: nat)
    requires IsFirstSignature(lines, name, f)
    requires IsFirstOpen(lines, f, s)
    requires f <= j < |lines| && IsClose(lines, f, j)
    requires forall i :: f <= i < j ==> !IsClose(lines, f, i)
    ensures s <= j
    ensures FetchBody(lines, name) == Unlines(lines[s..j + 1])
  {
    assert FirstSignature(lines, name, 0) == Some(f);
    assert FirstOpen(lines, f) == Some(s);
    assert FirstClose(lines, f, f) == Some(j);
    OpenBeforeClose(lines, f, j);
  }

  /**
   Without any closing line the lines run out: the partial body from the first
   `{`-bearing line to the end of the file is returned, not a failure.
   */
  lemma FetchBodyTruncated(lines: seq<string>, name: string, f: nat, s: nat)
    requires IsFirstSignature(lines, name, f)
    requires IsFirstOpen(lines, f, s)
    requires forall i :: f <= i < |lines| ==> !IsClose(lines, f, i)
    ensures FetchBody(lines, name) == Unlines(lines[s..])
  {
    assert FirstSignature(lines, name, 0) == Some(f);
    assert FirstOpen(lines, f) == Some(s);
    assert FirstClose(lines, f, f) == None;
    assert lines[s..CloseEnd(lines, f)] == lines[s..];
  }

  /**
   A stray `}` between the declaration and the body drives the counter below 0;
   the scan then never sees the counter return to 0 after a `}` line, so it
   reads to the end of the file.
   */
  lemma NegativeCounterDoesNotStop()
    ensures FetchBody(["public String run(", "}", "{", "}", "tail"], "run") == "{\n}\ntail\n"
  {
    var lines := ["public String run(", "}", "{", "}", "tail"];
    assert OccursAt(lines[0], "public String " + "run" + "(", 0);
    assert !Opens(lines[0]) && !Closes(lines[0]) && !Opens(lines[1]);
    assert !Opens(lines[4]) && !Closes(lines[4]) && !Closes(lines[2]) && !Opens(lines[3]);
    assert Depth(lines, 0, 2) == -1 && Depth(lines, 0, 4) == -1;
    FetchBodyTruncated(lines, "run", 0, 2);
    assert lines[2..] == ["{", "}", "tail"];
    assert Unlines(["{", "}", "tail"]) == Unlines(["{", "}"]) + "tail\n";
    assert Unlines(["{", "}"]) == Unlines(["{"]) + "}\n";
  }
}
