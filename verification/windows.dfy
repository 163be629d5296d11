/** The `/tmux/windows` handler's parser for the output of
    `tmux list-windows -F "#{window_index}|#{window_name}|#{window_active}|#{pane_current_command}"`. */
module Windows {
  import opened Options
  import opened Text
  import Decimal

  datatype Window = Window(index: nat, name: string, active: bool, command: string)

  /** The `-F` format the handler asks tmux for. */
  const ListFormat: string := "#{window_index}|#{window_name}|#{window_active}|#{pane_current_command}"

  /** `result.stdout.strip().split("\n")`. */
  function Lines(stdout: string): (lines: seq<string>)
    ensures |lines| >= 1
  {
    Split(Strip(stdout), '\n')
  }

  /** `line.split("|")`. */
  function Fields(line: string): seq<string> {
    Split(line, '|')
  }

  /** A line the loop does not skip: non-empty, with at least four fields. */
  predicate Listed(line: string) {
    line != [] && |Fields(line)| >= 4
  }

  /** The window a listed line describes, or `None` where `int(parts[0])`
      raises. Fields after the fourth are ignored. */
  function WindowOf(line: string): (w: Option<Window>)
    requires Listed(line)
    ensures w.Some? <==> Fields(line)[0] != [] && Decimal.AllDigits(Fields(line)[0])
  {
    var f := Fields(line);
    match Decimal.Parse(f[0])
    case None => None
    case Some(i) => Some(Window(i, f[1], f[2] == "1", f[3]))
  }

  /** The result of the loop over `lines`: the windows of the listed lines in
      order, or `None` when one of them has a non-numeric index, which makes
      the whole request fail. */
  function ParseLines(lines: seq<string>): (r: Option<seq<Window>>)
    ensures r.Some? ==> |r.value| <= |lines|
  {
    if lines == [] then Some([])
    else
      var last := lines[|lines| - 1];
      match ParseLines(lines[..|lines| - 1])
      case None => None
      case Some(ws) =>
        if !Listed(last) then Some(ws)
        else match WindowOf(last)
          case None => None
          case Some(w) => Some(ws + [w])
  }

  /** The listed lines, in order. */
  function ListedLines(lines: seq<string>): (ls: seq<string>)
    ensures |ls| <= |lines|
    ensures forall i :: 0 <= i < |ls| ==> Listed(ls[i])
  {
    if lines == [] then []
    else
      var last := lines[|lines| - 1];
      ListedLines(lines[..|lines| - 1]) + if Listed(last) then [last] else []
  }

  /** Parsing succeeds exactly when every listed line has a numeric index;
      then it yields one window per listed line, in line order, so never
      more windows than lines. */
  lemma {:induction false} ParseLinesSpec(lines: seq<string>)
    ensures var ls := ListedLines(lines);
      && (ParseLines(lines).Some? <==> forall i :: 0 <= i < |ls| ==> WindowOf(ls[i]).Some?)
      && (ParseLines(lines).Some? ==>
            var ws := ParseLines(lines).value;
            && |ws| == |ls| <= |lines|
            && forall i :: 0 <= i < |ws| ==> WindowOf(ls[i]) == Some(ws[i]))
  {
    if lines != [] {
      var init, last := lines[..|lines| - 1], lines[|lines| - 1];
      ParseLinesSpec(init);
      var ls0 := ListedLines(init);
      var ls := ListedLines(lines);
      assert ls == ls0 + if Listed(last) then [last] else [];
      assert forall i :: 0 <= i < |ls0| ==> ls[i] == ls0[i];
      if Listed(last) {
        assert ls[|ls0|] == last;
      }
    }
  }

  /** What a window's active flag means: the third field is exactly "1". */
  lemma ActiveFlag(line: string)
    requires Listed(line) && WindowOf(line).Some?
    ensures WindowOf(line).value.active <==> Fields(line)[2] == "1"
    ensures WindowOf(line).value.name == Fields(line)[1]
    ensures WindowOf(line).value.command == Fields(line)[3]
    ensures Decimal.Parse(Fields(line)[0]) == Some(WindowOf(line).value.index)
  {
  }

  /** An error in some line is not undone by the lines after it. */
  lemma {:induction false} ParseFailureSticks(lines: seq<string>, k: nat)
    requires k <= |lines| && ParseLines(lines[..k]) == None
    ensures ParseLines(lines) == None
  {
    if k < |lines| {
      var init := lines[..|lines| - 1];
      assert lines[..k] == init[..k];
      ParseFailureSticks(init, k);
    } else {
      assert lines[..k] == lines;
    }
  }

  /** Empty tool output lists no windows. */
  lemma EmptyOutput()
    ensures ParseLines(Lines("")) == Some([])
  {
    assert Strip("") == "";
    assert Lines("") == [""];
    assert [""][..0] == [];
  }

  /** The `for line in ...` loop of `list_windows`. */
  method ParseWindowList(stdout: string) returns (r: Option<seq<Window>>)
    ensures r == ParseLines(Lines(stdout))
  {
    var lines := Split(Strip(stdout), '\n');
    var windows: seq<Window> := [];
    for i := 0 to |lines|
      invariant ParseLines(lines[..i]) == Some(windows)
    {
      var line := lines[i];
      assert lines[..i + 1][..i] == lines[..i];
      if line == [] {
        continue;
      }
      var parts := Split(line, '|');
      if |parts| < 4 {
        continue;
      }
      var index := Decimal.Parse(parts[0]);
      if index.None? {
        ParseFailureSticks(lines, i + 1);
        return None;
      }
      windows := windows + [Window(index.value, parts[1], parts[2] == "1", parts[3])];
    }
    assert lines[..|lines|] == lines;
    return Some(windows);
  }

  /** The line tmux prints for a window under `ListFormat`. */
  function FormatLine(w: Window): string {
    Decimal.Render(w.index) + "|" + w.name + "|" + (if w.active then "1" else "0") + "|" + w.command
  }

  /** A name or command tmux can print on one line without breaking the
      format: no separator, and no line break, neither `\n` nor the `\r`
      that text-mode decoding turns into `\n`. */
  predicate Printable(s: string) {
    '|' !in s && '\n' !in s && '\r' !in s
  }

  /** Parsing a formatted line gives back the window. */
  lemma ParseFormatLine(w: Window)
    requires Printable(w.name) && Printable(w.command)
    ensures Listed(FormatLine(w)) && WindowOf(FormatLine(w)) == Some(w)
  {
    var idx, flag := Decimal.Render(w.index), if w.active then "1" else "0";
    var fields := [idx, w.name, flag, w.command];
    assert Join(fields[3..], '|') == w.command;
    assert Join(fields[2..], '|') == flag + "|" + w.command;
    assert Join(fields[1..], '|') == w.name + "|" + flag + "|" + w.command;
    assert FormatLine(w) == Join(fields, '|');
    SplitJoin(fields, '|');
    Decimal.ParseRender(w.index);
  }

  /** The lines tmux prints for a list of windows. */
  function FormatLines(ws: seq<Window>): (lines: seq<string>)
    ensures |lines| == |ws|
  {
    seq(|ws|, i requires 0 <= i < |ws| => FormatLine(ws[i]))
  }

  /** tmux's whole output: one line per window, each ended by a newline. */
  function FormatList(ws: seq<Window>): string {
    if ws == [] then [] else Join(FormatLines(ws), '\n') + "\n"
  }

  predicate AllPrintable(ws: seq<Window>) {
    forall i :: 0 <= i < |ws| ==> Printable(ws[i].name) && Printable(ws[i].command)
  }

  /** Every name and command printable, and the last command not ending in
      whitespace (which `strip()` would remove). */
  predicate ListableWindows(ws: seq<Window>) {
    && AllPrintable(ws)
    && (ws != [] ==> var c := ws[|ws| - 1].command; c == [] || !IsSpace(c[|c| - 1]))
  }

  lemma {:induction false} ParseFormattedLines(ws: seq<Window>)
    requires AllPrintable(ws)
    ensures ParseLines(FormatLines(ws)) == Some(ws)
  {
    if ws != [] {
      var init := ws[..|ws| - 1];
      assert AllPrintable(init);
      ParseFormattedLines(init);
      assert FormatLines(ws)[..|ws| - 1] == FormatLines(init);
      ParseFormatLine(ws[|ws| - 1]);
      assert init + [ws[|ws| - 1]] == ws;
    }
  }

  lemma FormattedLinesOneLine(ws: seq<Window>)
    requires AllPrintable(ws)
    ensures forall i :: 0 <= i < |ws| ==> '\n' !in FormatLines(ws)[i]
  {
    forall i | 0 <= i < |ws| ensures '\n' !in FormatLines(ws)[i] {
      ParseFormatLine(ws[i]);
    }
  }

  /** A formatted line starts with a digit. */
  lemma FormatLineStart(w: Window)
    ensures FormatLine(w) != [] && Decimal.IsDigit(FormatLine(w)[0])
  {
    assert FormatLine(w)[0] == Decimal.Render(w.index)[0];
  }

  /** A formatted line ends with its command, or with the separator. */
  lemma FormatLineEnd(w: Window)
    ensures var l := FormatLine(w);
      l[|l| - 1] == if w.command == [] then '|' else w.command[|w.command| - 1]
  {
  }

  /** The join of the formatted lines neither starts nor ends with
      whitespace. */
  lemma FormattedJoin(ws: seq<Window>)
    requires ListableWindows(ws) && ws != []
    ensures var out := Join(FormatLines(ws), '\n');
      out != [] && !IsSpace(out[0]) && !IsSpace(out[|out| - 1])
  {
    var lines := FormatLines(ws);
    var first, last := FormatLine(ws[0]), FormatLine(ws[|ws| - 1]);
    FormatLineStart(ws[0]);
    assert !IsSpace(first[0]);
    FormatLineEnd(ws[|ws| - 1]);
    assert !IsSpace(last[|last| - 1]);
    assert lines[0] == first && lines[|lines| - 1] == last;
    JoinEdges(lines, '\n');
  }

  /** Listing the windows tmux describes gives back exactly those windows,
      in order: for instance the window a `new_window` call with a command
      created, named "shell" and running that command. */
  lemma ListRoundTrip(ws: seq<Window>)
    requires ListableWindows(ws)
    ensures ParseLines(Lines(FormatList(ws))) == Some(ws)
  {
    if ws == [] {
      EmptyOutput();
    } else {
      FormattedLinesOneLine(ws);
      FormattedJoin(ws);
      StripTrailingNewline(Join(FormatLines(ws), '\n'));
      SplitJoin(FormatLines(ws), '\n');
      ParseFormattedLines(ws);
    }
  }
}
