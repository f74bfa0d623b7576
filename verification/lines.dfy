// Text as lines: what line and column counters mean on a rendered document.
module Lines {
  import opened Wrappers

  // The position counters after one more character.
  function Advance(pos: (nat, nat), c: char): (nat, nat)
  {
    if c == '\n' then (pos.0 + 1, 0) else (pos.0, pos.1 + 1)
  }

  // Line and column just after a text.
  function PositionAfter(s: string): (nat, nat)
  {
    if s == "" then (0, 0) else Advance(PositionAfter(s[..|s| - 1]), s[|s| - 1])
  }

  // The text split at its newlines.
  function LinesOf(s: string): (r: seq<string>)
    ensures r != []
  {
    if s == "" then [""]
    else
      var r := LinesOf(s[..|s| - 1]);
      if s[|s| - 1] == '\n' then r + [""] else r[..|r| - 1] + [r[|r| - 1] + [s[|s| - 1]]]
  }

  function Join(lines: seq<string>): string
    requires lines != []
  {
    if |lines| == 1 then lines[0] else Join(lines[..|lines| - 1]) + "\n" + lines[|lines| - 1]
  }

  // Splitting is the inverse of joining newline-free lines.
  lemma {:induction false} LinesJoin(s: string)
    ensures Join(LinesOf(s)) == s
    ensures forall l | l in LinesOf(s) :: '\n' !in l
  {
    if s != "" {
      var init, c := s[..|s| - 1], s[|s| - 1];
      LinesJoin(init);
      var r := LinesOf(init);
      assert s == init + [c];
      if c == '\n' {
        assert (r + [""])[..|r|] == r;
      } else {
        var r' := r[..|r| - 1] + [r[|r| - 1] + [c]];
        assert r'[..|r'| - 1] == r[..|r| - 1];
        forall l | l in r' ensures '\n' !in l {
          assert l in r[..|r| - 1] || l == r[|r| - 1] + [c];
          assert r[|r| - 1] in r;
        }
      }
    }
  }

  // Characters before the column-th character of a line, newlines included.
  function Offset(lines: seq<string>, line: nat, column: nat): nat
    requires line <= |lines|
  {
    if line == 0 then column else Offset(lines, line - 1, |lines[line - 1]| + 1) + column
  }

  ghost predicate InGrid(lines: seq<string>, line: nat, column: nat)
  {
    line < |lines| && column <= |lines[line]|
  }

  lemma {:induction false} OffsetOfPrefix(a: seq<string>, b: seq<string>, line: nat, column: nat)
    requires line <= |a| && line <= |b| && a[..line] == b[..line]
    ensures Offset(a, line, column) == Offset(b, line, column)
    decreases line
  {
    if line > 0 {
      assert a[line - 1] == a[..line][line - 1] == b[line - 1];
      assert a[..line - 1] == a[..line][..line - 1] == b[..line - 1];
      OffsetOfPrefix(a, b, line - 1, |a[line - 1]| + 1);
    }
  }

  lemma OffsetColumn(lines: seq<string>, line: nat, column: nat)
    requires line <= |lines|
    ensures Offset(lines, line, column) == Offset(lines, line, 0) + column
  {
  }

  // The counters stand at the end of the last line.
  lemma {:induction false} CountersAtEnd(s: string)
    ensures var ls := LinesOf(s); PositionAfter(s) == (|ls| - 1, |ls[|ls| - 1]|)
  {
    if s != "" {
      CountersAtEnd(s[..|s| - 1]);
    }
  }

  lemma {:induction false} EndOffset(s: string)
    ensures var ls := LinesOf(s); Offset(ls, |ls| - 1, |ls[|ls| - 1]|) == |s|
  {
    if s != "" {
      var init := s[..|s| - 1];
      EndOffset(init);
      var r, r' := LinesOf(init), LinesOf(s);
      OffsetColumn(r, |r| - 1, |r[|r| - 1]|);
      if s[|s| - 1] == '\n' {
        assert r'[..|r|] == r[..|r|];
        OffsetOfPrefix(r, r', |r|, 0);
        OffsetColumn(r, |r| - 1, |r[|r| - 1]| + 1);
      } else {
        OffsetOfPrefix(r, r', |r| - 1, 0);
        OffsetColumn(r', |r| - 1, |r'[|r| - 1]|);
      }
    }
  }

  lemma PositionIsLastLine(s: string)
    ensures var ls := LinesOf(s); PositionAfter(s) == (|ls| - 1, |ls[|ls| - 1]|)
    ensures var ls := LinesOf(s); Offset(ls, |ls| - 1, |ls[|ls| - 1]|) == |s|
  {
    hide *;
    CountersAtEnd(s);
    EndOffset(s);
  }

  // One more character keeps every earlier position where it was.
  lemma GridGrows(s: string, line: nat, column: nat)
    requires s != "" && InGrid(LinesOf(s[..|s| - 1]), line, column)
    ensures InGrid(LinesOf(s), line, column)
    ensures Offset(LinesOf(s), line, column) == Offset(LinesOf(s[..|s| - 1]), line, column)
  {
    OffsetOfPrefix(LinesOf(s[..|s| - 1]), LinesOf(s), line, column);
  }

  // Every position but the last was there before the last character.
  lemma GridShrinks(s: string, line: nat, column: nat)
    requires InGrid(LinesOf(s), line, column) && PositionAfter(s) != (line, column)
    ensures s != "" && InGrid(LinesOf(s[..|s| - 1]), line, column)
  {
    hide *;
    CountersAtEnd(s);
    NoLine(line, column);
    LastCharacter(s);
    if s != "" {
      GridBefore(LinesOf(s[..|s| - 1]), LinesOf(s), s[|s| - 1], line, column);
    }
  }

  lemma LastCharacter(s: string)
    ensures s != "" ==>
              var r, c := LinesOf(s[..|s| - 1]), s[|s| - 1];
              LinesOf(s) == if c == '\n' then r + [""] else r[..|r| - 1] + [r[|r| - 1] + [c]]
  {
  }

  lemma NoLine(line: nat, column: nat)
    ensures InGrid(LinesOf(""), line, column) ==> PositionAfter("") == (line, column)
  {
    assert LinesOf("") == [""];
  }

  lemma GridBefore(r: seq<string>, r': seq<string>, c: char, line: nat, column: nat)
    requires r != [] && r' == if c == '\n' then r + [""] else r[..|r| - 1] + [r[|r| - 1] + [c]]
    requires InGrid(r', line, column) && (line, column) != (|r'| - 1, |r'[|r'| - 1]|)
    ensures InGrid(r, line, column)
  {
    if line < |r| - 1 {
      assert r'[line] == r[line];
    }
  }

  // From a place in the text to its position in the grid of lines, and back.
  lemma {:induction false} PlaceToPosition(s: string, k: nat)
    requires k <= |s|
    ensures var p := PositionAfter(s[..k]);
            InGrid(LinesOf(s), p.0, p.1) && Offset(LinesOf(s), p.0, p.1) == k
    decreases |s|
  {
    if k == |s| {
      assert s[..k] == s;
      PositionIsLastLine(s);
    } else {
      var init := s[..|s| - 1];
      assert init[..k] == s[..k];
      PlaceToPosition(init, k);
      GridGrows(s, PositionAfter(s[..k]).0, PositionAfter(s[..k]).1);
    }
  }

  // From a position in the grid of lines to its place in the text, and back.
  lemma {:induction false} PositionToPlace(s: string, line: nat, column: nat)
    requires InGrid(LinesOf(s), line, column)
    ensures Offset(LinesOf(s), line, column) <= |s|
    ensures PositionAfter(s[..Offset(LinesOf(s), line, column)]) == (line, column)
    decreases |s|
  {
    var here := Offset(LinesOf(s), line, column);
    if PositionAfter(s) == (line, column) {
      PositionIsLastLine(s);
      assert s[..here] == s;
    } else {
      GridShrinks(s, line, column);
      hide *;
      var init := s[..|s| - 1];
      PositionToPlace(init, line, column);
      GridGrows(s, line, column);
      assert init[..here] == s[..here];
    }
  }

  // The place of a position, if the position exists.
  ghost function PlaceOfPosition(s: string, line: nat, column: nat): (r: Option<nat>)
  {
    if InGrid(LinesOf(s), line, column) then Some(Offset(LinesOf(s), line, column)) else None
  }

  // A place is the place of a position exactly when the counters read that position there.
  lemma PlaceFound(s: string, k: nat, line: nat, column: nat)
    requires k <= |s|
    ensures PlaceOfPosition(s, line, column) == Some(k) <==> PositionAfter(s[..k]) == (line, column)
  {
    PlaceToPosition(s, k);
    if InGrid(LinesOf(s), line, column) {
      PositionToPlace(s, line, column);
    }
  }

  lemma PlaceInText(s: string, line: nat, column: nat)
    ensures var r := PlaceOfPosition(s, line, column); r.Some? ==> r.value <= |s|
  {
    if InGrid(LinesOf(s), line, column) {
      PositionToPlace(s, line, column);
    }
  }

  lemma LinesStep(s: string, c: char)
    ensures PositionAfter(s + [c]) == Advance(PositionAfter(s), c)
    ensures var r := LinesOf(s);
            LinesOf(s + [c]) == if c == '\n' then r + [""] else r[..|r| - 1] + [r[|r| - 1] + [c]]
  {
    assert (s + [c])[..|s|] == s;
  }

  // What one more character does to the number of lines and to the longest line so far.
  lemma CountStep(s: string, i: nat)
    requires i < |s|
    ensures |LinesOf(s[..i + 1])| == |LinesOf(s[..i])| + (if s[i] == '\n' then 1 else 0)
  {
    assert s[..i + 1] == s[..i] + [s[i]];
    LinesStep(s[..i], s[i]);
  }

  // What the search for the length of one line knows after a prefix: the line it is on, at most
  // one beyond the line sought, and the length of that line so far.
  ghost function LineReached(s: string, target: nat): nat
  {
    if |LinesOf(s)| - 1 <= target then |LinesOf(s)| - 1 else target + 1
  }

  ghost function LengthReached(s: string, target: nat): nat
  {
    if target < |LinesOf(s)| then |LinesOf(s)[target]| else 0
  }

  lemma LengthStep(s: string, i: nat, target: nat)
    requires i < |s|
    ensures var line := LineReached(s[..i], target);
            && LineReached(s[..i + 1], target) == (if line <= target && s[i] == '\n' then line + 1 else line)
            && LengthReached(s[..i + 1], target) ==
               LengthReached(s[..i], target) + if line == target && s[i] != '\n' then 1 else 0
  {
    assert s[..i + 1] == s[..i] + [s[i]];
    LinesStep(s[..i], s[i]);
    hide LinesOf;
  }

  lemma LengthAtEnds(s: string, target: nat)
    ensures LineReached("", target) == 0 && LengthReached("", target) == 0
    ensures LineReached(s, target) >= target <==> target < |LinesOf(s)|
    ensures target < |LinesOf(s)| ==> LengthReached(s, target) == |LinesOf(s)[target]|
  {
    assert LinesOf("") == [""];
  }

  function LongestFinished(s: string): nat
  {
    MaxLength(LinesOf(s)[..|LinesOf(s)| - 1])
  }

  function LastLine(s: string): string
  {
    LinesOf(s)[|LinesOf(s)| - 1]
  }

  lemma LongestStep(s: string, i: nat)
    requires i < |s|
    ensures s[i] != '\n' ==>
              LongestFinished(s[..i + 1]) == LongestFinished(s[..i]) && |LastLine(s[..i + 1])| == |LastLine(s[..i])| + 1
    ensures s[i] == '\n' ==>
              && LongestFinished(s[..i + 1]) ==
                 (if LongestFinished(s[..i]) > |LastLine(s[..i])| then LongestFinished(s[..i]) else |LastLine(s[..i])|)
              && |LastLine(s[..i + 1])| == 0
  {
    assert s[..i + 1] == s[..i] + [s[i]];
    LinesStep(s[..i], s[i]);
    var ls, ls' := LinesOf(s[..i]), LinesOf(s[..i + 1]);
    if s[i] == '\n' {
      assert ls'[..|ls'| - 1] == ls;
    } else {
      assert ls'[..|ls'| - 1] == ls[..|ls| - 1];
    }
  }

  lemma LongestAtEnds(s: string)
    ensures s == "" ==> LongestFinished(s) == 0 && |LastLine(s)| == 0
    ensures MaxLength(LinesOf(s)) == if LongestFinished(s) > |LastLine(s)| then LongestFinished(s) else |LastLine(s)|
  {
  }

  function MaxLength(lines: seq<string>): (m: nat)
    ensures forall l | l in lines :: |l| <= m
    ensures lines != [] ==> exists l :: l in lines && |l| == m
  {
    if lines == [] then 0
    else
      var rest := MaxLength(lines[..|lines| - 1]);
      var last := |lines[|lines| - 1]|;
      assert lines == lines[..|lines| - 1] + [lines[|lines| - 1]];
      assert lines[|lines| - 1] in lines;
      if rest > last then rest else last
  }
}
