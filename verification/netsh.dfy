/** Reading the connected network's name out of the text printed by
    `netsh wlan show interfaces` (main.py `get_connected_wifi`). Running the
    command is outside the model: its standard output is an input, and `None`
    stands for a command that could not run or exited with an error. */
module Netsh {
  import opened Common
  import opened Text

  /** A line that names the SSID: it mentions `SSID` but not `BSSID`
      (both tests are case-sensitive). */
  predicate IsSsidLine(line: string) {
    Contains(line, "SSID") && !Contains(line, "BSSID")
  }

  /** Index of the first SSID line at or after `from`. */
  function FirstSsidLine(lines: seq<string>, from: nat): (r: Option<nat>)
    requires from <= |lines|
    ensures r.Some? ==> from <= r.value < |lines| && IsSsidLine(lines[r.value])
    ensures r.Some? ==> forall j :: from <= j < r.value ==> !IsSsidLine(lines[j])
    ensures r.None? ==> forall j :: from <= j < |lines| ==> !IsSsidLine(lines[j])
    decreases |lines| - from
  {
    if from == |lines| then None
    else if IsSsidLine(lines[from]) then Some(from)
    else FirstSsidLine(lines, from + 1)
  }

  /** The loop of `get_connected_wifi` over `stdout.split('\n')`: the first
      SSID line decides. Its text between the first and the second `:` is
      stripped and returned; a first SSID line without any `:` makes
      `line.split(':')[1]` raise, which is swallowed into `None`. */
  function ParseSsid(stdout: string): (r: Option<string>)
    ensures r.Some? ==> ':' !in r.value && '\n' !in r.value
    ensures r.Some? ==> r.value == "" || (!IsSpace(r.value[0]) && !IsSpace(r.value[|r.value| - 1]))
    ensures r.None? <==>
      var lines := Split(stdout, '\n');
      var k := FirstSsidLine(lines, 0);
      k.None? || ':' !in lines[k.value]
  {
    var lines := Split(stdout, '\n');
    match FirstSsidLine(lines, 0)
    case None => None
    case Some(k) =>
      var fields := Split(lines[k], ':');
      FieldFacts(lines[k]);
      if |fields| < 2 then None else Some(Strip(fields[1]))
  }

  /** What the second `:`-separated field of a line looks like once stripped. */
  lemma FieldFacts(line: string)
    requires '\n' !in line
    ensures |Split(line, ':')| >= 2 <==> ':' in line
    ensures |Split(line, ':')| >= 2 ==>
      var f := Strip(Split(line, ':')[1]);
      ':' !in f && '\n' !in f && (f == "" || (!IsSpace(f[0]) && !IsSpace(f[|f| - 1])))
  {
    var fields := Split(line, ':');
    if |fields| < 2 {
      SplitOneField(line, ':');
    } else {
      SplitManyFields(line, ':');
      StripFree(fields[1], ':');
      SplitPieceFree(line, ':', '\n', 1);
      StripFree(fields[1], '\n');
    }
  }

  /** `get_connected_wifi`: no output means no network. */
  function CurrentNetwork(netshOutput: Option<string>): (r: Option<string>)
    ensures netshOutput.None? ==> r.None?
    ensures netshOutput.Some? ==> r == ParseSsid(netshOutput.value)
  {
    match netshOutput
    case None => None
    case Some(out) => ParseSsid(out)
  }

  // ---------------------------------------------------------------------------
  // Helper facts about Split pieces
  // ---------------------------------------------------------------------------

  lemma SplitOneField(s: string, sep: char)
    requires |Split(s, sep)| < 2
    ensures sep !in s
  {
    assert Join(Split(s, sep), sep) == Split(s, sep)[0];
  }

  lemma SplitManyFields(s: string, sep: char)
    requires |Split(s, sep)| >= 2
    ensures sep in s
  {
    var parts := Split(s, sep);
    assert s == parts[0] + [sep] + Join(parts[1..], sep);
    assert s[|parts[0]|] == sep;
  }

  /** A character absent from `s` is absent from each of its pieces. */
  lemma {:induction false} SplitPieceFree(s: string, sep: char, c: char, k: nat)
    requires c !in s && k < |Split(s, sep)|
    ensures c !in Split(s, sep)[k]
  {
    JoinContainsPieces(Split(s, sep), sep, k);
  }

  lemma {:induction false} JoinContainsPieces(parts: seq<string>, sep: char, k: nat)
    requires |parts| >= 1 && k < |parts|
    ensures forall c :: c in parts[k] ==> c in Join(parts, sep)
    decreases |parts|
  {
    if |parts| > 1 {
      if k > 0 {
        JoinContainsPieces(parts[1..], sep, k - 1);
      }
    }
  }

  /** Stripping never introduces a character. */
  lemma StripFree(s: string, c: char)
    requires c !in s
    ensures c !in Strip(s)
  {
    var left := StripLeft(s);
    SliceFree(s, c, |s| - |left|, |s|);
    SliceFree(left, c, 0, |StripRight(left)|);
  }

  /** A character absent from `s` is absent from every slice of it. */
  lemma SliceFree(s: string, c: char, a: nat, b: nat)
    requires c !in s && a <= b <= |s|
    ensures c !in s[a..b]
  {
    forall j | 0 <= j < b - a
      ensures s[a..b][j] != c
    {
      assert s[a..b][j] == s[a + j];
    }
  }

  // ---------------------------------------------------------------------------
  // Rendering an interface report and parsing it back
  // ---------------------------------------------------------------------------

  /** The label part of the SSID line in netsh's interface report. */
  const SsidLabel: string := Spaces(4) + "SSID" + Spaces(19)

  /** `n` blanks. */
  function Spaces(n: nat): string {
    seq(n, _ => ' ')
  }

  /** The SSID line netsh prints for a network called `name`. */
  function SsidLine(name: string): string {
    SsidLabel + ": " + name
  }

  /** An occurrence of `sub` in `a + b` lies in `b` when `a` never holds the
      first character of `sub`. */
  lemma ContainsPastPrefix(a: string, b: string, sub: string)
    requires |sub| > 0 && sub[0] !in a
    requires Contains(a + b, sub)
    ensures Contains(b, sub)
  {
    var i :| OccursAt(a + b, sub, i);
    assert i >= |a| by {
      assert (a + b)[i] == sub[0];
    }
    assert OccursAt(b, sub, i - |a|) by {
      assert (a + b)[i..i + |sub|] == b[i - |a|..i - |a| + |sub|];
    }
  }

  /** The SSID line is recognised unless the name itself contains `BSSID`. */
  lemma SsidLineRecognised(name: string)
    requires !Contains(name, "BSSID")
    ensures IsSsidLine(SsidLine(name))
  {
    var line := SsidLine(name);
    LabelFacts();
    assert Contains(line, "SSID") by {
      assert line[4..8] == SsidLabel[4..8];
      assert OccursAt(line, "SSID", 4);
    }
    if Contains(line, "BSSID") {
      assert line == (SsidLabel + ": ") + name;
      assert 'B' !in SsidLabel + ": ";
      ContainsPastPrefix(SsidLabel + ": ", name, "BSSID");
    }
  }

  /** The label holds `SSID` at position 4, and no `B`, colon or newline. */
  lemma LabelFacts()
    ensures |SsidLabel| >= 8 && SsidLabel[4..8] == "SSID"
    ensures 'B' !in SsidLabel && ':' !in SsidLabel && '\n' !in SsidLabel
  {
    assert SsidLabel[4..8] == "SSID" by {
      assert SsidLabel == Spaces(4) + ("SSID" + Spaces(19));
    }
    assert forall i :: 0 <= i < |SsidLabel| ==> SsidLabel[i] == ' ' || SsidLabel[i] in "SID";
  }

  lemma JoinPrependFirst(a: string, parts: seq<string>, sep: char)
    requires |parts| >= 1
    ensures Join([a + parts[0]] + parts[1..], sep) == a + Join(parts, sep)
  {
    var q := [a + parts[0]] + parts[1..];
    if |parts| > 1 {
      assert q[1..] == parts[1..];
    }
  }

  /** The SSID line splits at its first colon into the label and the name's
      pieces, the first of which carries the space after the colon. */
  lemma SplitSsidLine(name: string)
    ensures Split(SsidLine(name), ':') ==
      [SsidLabel, " " + Split(name, ':')[0]] + Split(name, ':')[1..]
  {
    var pieces := Split(name, ':');
    var tail := [" " + pieces[0]] + pieces[1..];
    JoinPrependFirst(" ", pieces, ':');
    var parts := [SsidLabel] + tail;
    assert parts[1..] == tail;
    assert Join(parts, ':') == SsidLabel + [':'] + (" " + name);
    assert SsidLine(name) == SsidLabel + [':'] + (" " + name);
    LabelFacts();
    assert ':' !in " " + pieces[0];
    forall k | 0 <= k < |parts| ensures ':' !in parts[k] {
      if k >= 2 {
        assert parts[k] == pieces[k - 1];
      }
    }
    SplitJoin(parts, ':');
  }

  lemma StripLeadingSpace(s: string)
    ensures Strip(" " + s) == Strip(s)
  {
    assert (" " + s)[1..] == s;
  }

  /** Parsing a report whose first SSID line is the one printed for `name`
      yields the name up to its first colon, stripped: the SSID is truncated
      at a colon. */
  lemma {:induction false} ParseReport(before: seq<string>, name: string, after: seq<string>)
    requires forall j :: 0 <= j < |before| ==> !IsSsidLine(before[j]) && '\n' !in before[j]
    requires forall j :: 0 <= j < |after| ==> '\n' !in after[j]
    requires '\n' !in name && !Contains(name, "BSSID")
    ensures ParseSsid(Join(before + [SsidLine(name)] + after, '\n'))
      == Some(Strip(Split(name, ':')[0]))
  {
    var line := SsidLine(name);
    var stdout := Join(before + [line] + after, '\n');
    var fields := Split(line, ':');
    assert fields[1] == " " + Split(name, ':')[0] by {
      SplitSsidLine(name);
    }
    assert ParseSsid(stdout) == Some(Strip(fields[1])) by {
      ReportLines(before, name, after);
      ReportFirstSsidLine(before, name, after);
    }
    StripLeadingSpace(Split(name, ':')[0]);
  }

  /** The report splits back into its lines. */
  lemma ReportLines(before: seq<string>, name: string, after: seq<string>)
    requires forall j :: 0 <= j < |before| ==> '\n' !in before[j]
    requires forall j :: 0 <= j < |after| ==> '\n' !in after[j]
    requires '\n' !in name
    ensures Split(Join(before + [SsidLine(name)] + after, '\n'), '\n') == before + [SsidLine(name)] + after
  {
    SsidLineFree(name);
    LinesFree(before, SsidLine(name), after);
    SplitJoin(before + [SsidLine(name)] + after, '\n');
  }

  /** The SSID line adds no newline to the name. */
  lemma SsidLineFree(name: string)
    requires '\n' !in name
    ensures '\n' !in SsidLine(name)
  {
    LabelFacts();
  }

  /** Lines without a newline stay so when put together in a list. */
  lemma LinesFree(before: seq<string>, line: string, after: seq<string>)
    requires forall j :: 0 <= j < |before| ==> '\n' !in before[j]
    requires forall j :: 0 <= j < |after| ==> '\n' !in after[j]
    requires '\n' !in line
    ensures forall k :: 0 <= k < |before + [line] + after| ==> '\n' !in (before + [line] + after)[k]
  {
    var lines := before + [line] + after;
    forall k | 0 <= k < |lines| ensures '\n' !in lines[k] {
      if k > |before| {
        assert lines[k] == after[k - |before| - 1];
      }
    }
  }

  /** The line printed for `name` is the first SSID line of the report. */
  lemma ReportFirstSsidLine(before: seq<string>, name: string, after: seq<string>)
    requires forall j :: 0 <= j < |before| ==> !IsSsidLine(before[j])
    requires !Contains(name, "BSSID")
    ensures FirstSsidLine(before + [SsidLine(name)] + after, 0) == Some(|before|)
  {
    var lines := before + [SsidLine(name)] + after;
    SsidLineRecognised(name);
    assert lines[|before|] == SsidLine(name);
    var first := FirstSsidLine(lines, 0);
    assert first.Some? && first.value <= |before|;
    assert first.value >= |before| by {
      assert forall j :: 0 <= j < |before| ==> lines[j] == before[j];
    }
  }

  /** A clean network name (no colon, no newline, no surrounding whitespace,
      no `BSSID` inside) is read back exactly. */
  lemma ParseReportRoundTrip(before: seq<string>, name: string, after: seq<string>)
    requires forall j :: 0 <= j < |before| ==> !IsSsidLine(before[j]) && '\n' !in before[j]
    requires forall j :: 0 <= j < |after| ==> '\n' !in after[j]
    requires '\n' !in name && ':' !in name && !Contains(name, "BSSID")
    requires name == "" || (!IsSpace(name[0]) && !IsSpace(name[|name| - 1]))
    ensures ParseSsid(Join(before + [SsidLine(name)] + after, '\n')) == Some(name)
  {
    ParseReport(before, name, after);
    SplitFree(name, ':');
    StrippedKept(name);
  }

  /** An SSID containing a colon is cut at it: `Cafe:Guest` reads as `Cafe`. */
  lemma ColonTruncates(head: string, tail: string)
    requires '\n' !in head && ':' !in head && '\n' !in tail && 'B' !in head + tail
    requires head == "" || (!IsSpace(head[0]) && !IsSpace(head[|head| - 1]))
    ensures ParseSsid(Join([SsidLine(head + ":" + tail)], '\n')) == Some(head)
  {
    var name := head + ":" + tail;
    assert Split(name, ':')[0] == head by {
      SplitPrefix(head, tail);
    }
    assert ParseSsid(Join([SsidLine(name)], '\n')) == Some(Strip(Split(name, ':')[0])) by {
      assert '\n' !in name;
      FirstCharAbsent(name, "BSSID");
      ParseReport([], name, []);
      assert [] + [SsidLine(name)] + [] == [SsidLine(name)];
    }
    StrippedKept(head);
  }

  lemma StrippedKept(s: string)
    requires s == "" || (!IsSpace(s[0]) && !IsSpace(s[|s| - 1]))
    ensures Strip(s) == s
  {
    if s != "" {
      assert StripLeft(s) == s;
      assert StripRight(s) == s;
    }
  }

  /** The first piece of `head + ":" + tail` is `head` when `head` is colon-free. */
  lemma {:induction false} SplitPrefix(head: string, tail: string)
    requires ':' !in head
    ensures Split(head + ":" + tail, ':')[0] == head
    decreases |head|
  {
    if head == "" {
      SplitSep(tail, ':');
    } else {
      assert head + ":" + tail == [head[0]] + (head[1..] + ":" + tail);
      assert ':' !in head[1..] by { assert forall c :: c in head[1..] ==> c in head; }
      SplitPrefix(head[1..], tail);
      SplitCons(head[0], head[1..] + ":" + tail, ':');
    }
  }
}
