/** The Markdown page: rows in order of ID, one line each, whatever order the entries come in. */
module Export {
  import opened Ordering
  import opened Filters
  import opened Gaps

  predicate ById(rows: seq<Gap>) {
    forall i, j | 0 <= i < j < |rows| :: !Less(rows[j].id, rows[i].id)
  }

  predicate DistinctIds(rows: seq<Gap>) {
    forall i, j | 0 <= i < j < |rows| :: rows[i].id != rows[j].id
  }

  function EscapePipes(s: string): string {
    if s == "" then ""
    else (if s[0] == '|' then "\\|" else [s[0]]) + EscapePipes(s[1..])
  }

  function OneLine(s: string): (t: string)
    ensures |t| == |s| && '\n' !in t
  {
    seq(|s|, i requires 0 <= i < |s| => if s[i] == '\n' then ' ' else s[i])
  }

  function NotesCell(notes: string): string { OneLine(EscapePipes(notes)) }

  function Row(g: Gap): string {
    "| `" + g.id + "` | `" + g.endpoint + "` | " + g.resource + " | " + g.status + " | " + NotesCell(g.notes) + " |\n"
  }

  function Rows(gs: seq<Gap>): string {
    if gs == [] then "" else Rows(gs[..|gs| - 1]) + Row(gs[|gs| - 1])
  }

  function Unescape(s: string): string {
    if s == "" then ""
    else if |s| > 1 && s[0] == '\\' && s[1] == '|' then "|" + Unescape(s[2..])
    else [s[0]] + Unescape(s[1..])
  }

  predicate PipesEscaped(s: string) {
    forall i | 0 <= i < |s| && s[i] == '|' :: i > 0 && s[i - 1] == '\\'
  }

  lemma {:induction false} EscapedPipes(s: string)
    ensures PipesEscaped(EscapePipes(s))
    ensures Unescape(EscapePipes(s)) == s
  {
    if s != "" {
      var rest := EscapePipes(s[1..]);
      EscapedPipes(s[1..]);
      assert rest != "" ==> rest[0] != '|';
      assert s == [s[0]] + s[1..];
      if s[0] == '|' {
        assert ("\\|" + rest)[2..] == rest;
      } else {
        assert ([s[0]] + rest)[1..] == rest;
      }
    }
  }

  lemma {:induction false} OneLineCommutes(s: string)
    ensures OneLine(EscapePipes(s)) == EscapePipes(OneLine(s))
  {
    if s != "" {
      OneLineCommutes(s[1..]);
      assert OneLine(s)[1..] == OneLine(s[1..]);
      var head := if s[0] == '|' then "\\|" else [s[0]];
      assert OneLine(head + EscapePipes(s[1..])) == OneLine(head) + OneLine(EscapePipes(s[1..]));
    }
  }

  /** In a notes cell every pipe follows an inserted backslash, and removing those gives the notes back on one line. */
  lemma NotesComeBack(notes: string)
    ensures PipesEscaped(NotesCell(notes)) && '\n' !in NotesCell(notes)
    ensures Unescape(NotesCell(notes)) == OneLine(notes)
  {
    OneLineCommutes(notes);
    EscapedPipes(OneLine(notes));
  }

  // Reading a page back.

  /** The lines of a text, without the newline that ends each of them. */
  function LinesOf(s: string): seq<string>
    decreases |s|
  {
    if s == "" then []
    else
      var i := Find(s, '\n');
      if i == |s| then [s] else [s[..i]] + LinesOf(s[i + 1..])
  }

  /** A pipe that separates cells. */
  predicate Bare(line: string, i: nat) { i < |line| && line[i] == '|' && (i == 0 || line[i - 1] != '\\') }

  function NextBare(line: string, i: nat): (j: nat)
    requires i <= |line|
    ensures i <= j <= |line| && (j < |line| ==> Bare(line, j)) && forall k: nat | i <= k < j :: !Bare(line, k)
    decreases |line| - i
  {
    if i == |line| || Bare(line, i) then i else NextBare(line, i + 1)
  }

  /** What stands between the separating pipes from position i on. */
  function Pieces(line: string, i: nat): seq<string>
    requires i <= |line|
    decreases |line| - i
  {
    var j := NextBare(line, i);
    if j == |line| then [line[i..]] else [line[i..j]] + Pieces(line, j + 1)
  }

  predicate PlainCell(s: string) { '|' !in s && '\n' !in s }

  predicate PlainCells(g: Gap) {
    PlainCell(g.id) && PlainCell(g.endpoint) && PlainCell(g.resource) && PlainCell(g.status)
  }

  /** The line reads as this entry: five cells, the last of which unescapes to the notes on one line. */
  predicate LineSays(line: string, g: Gap) {
    var cells := Pieces(line, 0);
    && |cells| == 7 && cells[0] == "" && cells[6] == ""
    && cells[1] == " `" + g.id + "` " && cells[2] == " `" + g.endpoint + "` "
    && cells[3] == " " + g.resource + " " && cells[4] == " " + g.status + " "
    && |cells[5]| >= 2 && cells[5][0] == ' ' && cells[5][|cells[5]| - 1] == ' '
    && NotesSay(cells[5][1..|cells[5]| - 1], g.notes)
  }

  predicate NotesSay(cell: string, notes: string) {
    var said := Unescape(cell);
    |said| == |notes| && forall i | 0 <= i < |said| :: said[i] == if notes[i] == '\n' then ' ' else notes[i]
  }

  /** After the header, one line for each entry, in order of ID. */
  ghost predicate PageSays(header: string, entries: seq<Gap>, out: string) {
    exists sorted: seq<Gap> :: TableSays(header, entries, sorted, out)
  }

  ghost predicate TableSays(header: string, entries: seq<Gap>, sorted: seq<Gap>, out: string) {
    && multiset(sorted) == multiset(entries) && ById(sorted) && header <= out
    && LinesSay(LinesOf(out[|header|..]), sorted)
  }

  lemma {:induction false} OneMoreLine(s: string, line: string)
    requires (s == "" || s[|s| - 1] == '\n') && '\n' !in line
    ensures LinesOf(s + line + "\n") == LinesOf(s) + [line]
    decreases |s|
  {
    var t := s + line + "\n";
    if s == "" {
      FindSkips(line, "", '\n');
      assert t == line + ['\n'] + "" && t[..|line|] == line && t[|line| + 1..] == "";
    } else {
      var i := Find(s, '\n');
      assert s == s[..i] + ['\n'] + s[i + 1..];
      assert t == s[..i] + ['\n'] + (s[i + 1..] + line + "\n");
      FindSkips(s[..i], s[i + 1..] + line + "\n", '\n');
      assert t[..i] == s[..i] && t[i + 1..] == s[i + 1..] + line + "\n";
      OneMoreLine(s[i + 1..], line);
    }
  }

  /** Cells, each followed by a pipe. */
  function Joined(cells: seq<string>): string {
    if cells == [] then "" else cells[0] + "|" + Joined(cells[1..])
  }

  predicate GoodCell(cell: string) { cell != "" && cell[|cell| - 1] == ' ' && PipesEscaped(cell) }

  lemma OnePiece(line: string, i: nat, c: string, rest: string)
    requires i <= |line| && line[i..] == c + "|" + rest && GoodCell(c)
    ensures var j := i + |c|; j < |line| && NextBare(line, i) == j && line[i..j] == c && line[j + 1..] == rest
  {
    var j := i + |c|;
    forall k | 0 <= k < |c| ensures line[i + k] == c[k] { assert line[i..][k] == c[k]; }
    assert line[i..][|c|] == '|';
    assert Bare(line, j) by { assert line[j - 1] == c[|c| - 1]; }
    forall k: nat | i <= k < j ensures !Bare(line, k) {
      assert line[k] == c[k - i];
      if c[k - i] == '|' { assert line[k - 1] == c[k - i - 1]; }
    }
    assert line[j + 1..] == line[i..][|c| + 1..];
  }

  lemma FirstPiece(line: string, i: nat, c: string, rest: string)
    requires i <= |line| && line[i..] == c + "|" + rest && GoodCell(c)
    ensures var j := i + |c| + 1; j <= |line| && line[j..] == rest && Pieces(line, i) == [c] + Pieces(line, j)
  {
    OnePiece(line, i, c, rest);
  }

  predicate GoodCells(cells: seq<string>) { forall k | 0 <= k < |cells| :: GoodCell(cells[k]) }

  /** The first of the joined cells, the others, and that they add up. */
  lemma HeadAndTail(cells: seq<string>)
    requires cells != [] && GoodCells(cells)
    ensures GoodCell(cells[0]) && GoodCells(cells[1..]) && Joined(cells) == cells[0] + "|" + Joined(cells[1..])
    ensures [cells[0]] + (cells[1..] + [""]) == cells + [""]
  {
  }

  lemma NoPieces(line: string, i: nat, cells: seq<string>)
    requires i <= |line| && line[i..] == Joined(cells) && cells == []
    ensures Pieces(line, i) == cells + [""]
  {
    assert line[i..] == "" && i == |line|;
    assert NextBare(line, i) == i;
  }

  lemma {:induction false} PiecesOfJoined(line: string, i: nat, cells: seq<string>)
    requires i <= |line| && line[i..] == Joined(cells) && GoodCells(cells)
    ensures Pieces(line, i) == cells + [""]
    decreases |cells|
  {
    hide GoodCell, GoodCells, NextBare, Pieces, Joined;
    if cells == [] {
      NoPieces(line, i, cells);
    } else {
      HeadAndTail(cells);
      FirstPiece(line, i, cells[0], Joined(cells[1..]));
      PiecesOfJoined(line, i + |cells[0]| + 1, cells[1..]);
    }
  }

  function RowCells(g: Gap): seq<string> {
    [" `" + g.id + "` ", " `" + g.endpoint + "` ", " " + g.resource + " ", " " + g.status + " ",
     " " + NotesCell(g.notes) + " "]
  }

  lemma {:induction false} JoinedPrefix(x: string, cells: seq<string>)
    requires cells != []
    ensures x + Joined(cells) == x + cells[0] + "|" + Joined(cells[1..])
  {
  }

  lemma FiveJoined(cells: seq<string>)
    requires |cells| == 5
    ensures "|" + Joined(cells)
         == "|" + cells[0] + "|" + cells[1] + "|" + cells[2] + "|" + cells[3] + "|" + cells[4] + "|"
  {
    hide Joined;
    var t0 := "|";
    JoinedPrefix(t0, cells);
    var t1 := t0 + cells[0] + "|";
    JoinedPrefix(t1, cells[1..]);
    var t2 := t1 + cells[1] + "|";
    assert cells[1..][1..] == cells[2..];
    JoinedPrefix(t2, cells[2..]);
    var t3 := t2 + cells[2] + "|";
    assert cells[2..][1..] == cells[3..];
    JoinedPrefix(t3, cells[3..]);
    var t4 := t3 + cells[3] + "|";
    assert cells[3..][1..] == cells[4..];
    JoinedPrefix(t4, cells[4..]);
    NoneJoined(cells[4..][1..]);
    assert t4 + cells[4] + "|" + "" == t4 + cells[4] + "|";
  }

  lemma NoneJoined(cells: seq<string>)
    requires cells == []
    ensures Joined(cells) == ""
  {
  }

  lemma CellEnds(x: string, open: string, content: string, close: string, next: string)
    ensures x + open + content + (close + "|" + next) == x + (open + content + close) + "|" + next
  {
  }

  lemma RowIsJoined(g: Gap)
    ensures Row(g) == "|" + Joined(RowCells(g)) + "\n"
  {
    hide Joined, NotesCell;
    var r := RowCells(g);
    FiveJoined(r);
    assert "| `" == "|" + " `" && "` | `" == "` " + "|" + " `" && "` | " == "` " + "|" + " ";
    assert " | " == " " + "|" + " " && " |\n" == " " + "|" + "\n";
    CellEnds("|", " `", g.id, "` ", " `");
    var t1 := "|" + r[0] + "|";
    CellEnds(t1, " `", g.endpoint, "` ", " ");
    var t2 := t1 + r[1] + "|";
    CellEnds(t2, " ", g.resource, " ", " ");
    var t3 := t2 + r[2] + "|";
    CellEnds(t3, " ", g.status, " ", " ");
    var t4 := t3 + r[3] + "|";
    CellEnds(t4, " ", NotesCell(g.notes), " ", "\n");
  }

  /** What stands between spaces and has each pipe escaped is a good cell. */
  lemma SpacedIsGood(open: string, content: string, close: string)
    requires open in {" ", " `"} && close in {" ", "` "} && PipesEscaped(content)
    requires '\n' !in content
    ensures GoodCell(open + content + close) && '\n' !in open + content + close
  {
    var cell := open + content + close;
    assert cell[|cell| - 1] == ' ';
    forall i | 0 <= i < |cell| && cell[i] == '|' ensures i > 0 && cell[i - 1] == '\\' {
      assert |open| <= i < |open| + |content| && content[i - |open|] == '|';
      assert cell[i - 1] == content[i - |open| - 1];
    }
  }

  lemma PlainIsEscaped(s: string)
    requires PlainCell(s)
    ensures PipesEscaped(s) && '\n' !in s
  {
  }

  lemma RowCellsAreGood(g: Gap)
    requires PlainCells(g)
    ensures GoodCells(RowCells(g)) && forall c | c in RowCells(g) :: '\n' !in c
  {
    hide GoodCell, PipesEscaped, NotesCell;
    PlainIsEscaped(g.id);
    PlainIsEscaped(g.endpoint);
    PlainIsEscaped(g.resource);
    PlainIsEscaped(g.status);
    NotesComeBack(g.notes);
    SpacedIsGood(" `", g.id, "` ");
    SpacedIsGood(" `", g.endpoint, "` ");
    SpacedIsGood(" ", g.resource, " ");
    SpacedIsGood(" ", g.status, " ");
    SpacedIsGood(" ", NotesCell(g.notes), " ");
  }

  lemma {:induction false} JoinedOnOneLine(cells: seq<string>)
    requires forall c | c in cells :: '\n' !in c
    ensures '\n' !in Joined(cells)
  {
    if cells != [] { JoinedOnOneLine(cells[1..]); }
  }

  lemma RowSays(g: Gap)
    requires PlainCells(g)
    ensures exists line :: Row(g) == line + "\n" && '\n' !in line && LineSays(line, g)
  {
    hide NotesCell, Row, RowCells, Unescape, Joined, LineSays;
    var cells := RowCells(g);
    var line := "|" + Joined(cells);
    RowIsJoined(g);
    RowCellsAreGood(g);
    JoinedOnOneLine(cells);
    assert line[1..] == Joined(cells) && NextBare(line, 0) == 0 && line[0..0] == "";
    PiecesOfJoined(line, 1, cells);
    assert Pieces(line, 0) == [""] + cells + [""];
    CellsSay(line, g);
  }

  lemma CellsSay(line: string, g: Gap)
    requires Pieces(line, 0) == [""] + RowCells(g) + [""]
    ensures LineSays(line, g)
  {
    hide NotesCell, Pieces, Unescape;
    var cells := RowCells(g);
    assert cells[4][1..|cells[4]| - 1] == NotesCell(g.notes);
    NotesComeBack(g.notes);
  }

  /** The lines say, entry by entry, what the list says. */
  predicate LinesSay(lines: seq<string>, gs: seq<Gap>) {
    |lines| == |gs| && forall i | 0 <= i < |gs| :: LineSays(lines[i], gs[i])
  }

  /** The text is made of whole lines that say what the list says. */
  predicate Tells(text: string, gs: seq<Gap>) {
    (text == "" || text[|text| - 1] == '\n') && LinesSay(LinesOf(text), gs)
  }

  lemma OneMoreRow(text: string, gs: seq<Gap>, row: string, line: string, g: Gap)
    requires Tells(text, gs) && row == line + "\n" && '\n' !in line && LineSays(line, g)
    ensures Tells(text + row, gs + [g])
  {
    hide LineSays, LinesOf;
    OneMoreLine(text, line);
    assert text + row == text + line + "\n";
  }

  lemma RowTells(text: string, gs: seq<Gap>, g: Gap)
    requires Tells(text, gs) && PlainCells(g)
    ensures Tells(text + Row(g), gs + [g])
  {
    hide Row, LineSays, LinesOf, LinesSay, PlainCells, Tells;
    RowSays(g);
    var line :| Row(g) == line + "\n" && '\n' !in line && LineSays(line, g);
    OneMoreRow(text, gs, Row(g), line, g);
  }

  lemma {:induction false} RowsTell(gs: seq<Gap>)
    requires forall g | g in gs :: PlainCells(g)
    ensures Tells(Rows(gs), gs)
  {
    if gs != [] {
      hide Row, PlainCells, Tells;
      var before, g := gs[..|gs| - 1], gs[|gs| - 1];
      RowsTell(before);
      RowTells(Rows(before), before, g);
      assert gs == before + [g];
    }
  }

  /** A page of entries whose other cells are plain text reads back as those entries. */
  lemma PageReadsBack(header: string, entries: seq<Gap>, out: string)
    requires IsPage(header, entries, out) && forall g | g in entries :: PlainCells(g)
    ensures PageSays(header, entries, out)
  {
    hide Rows, LinesOf, LinesSay, ById;
    var sorted :| multiset(sorted) == multiset(entries) && ById(sorted) && out == header + Rows(sorted);
    forall g | g in sorted ensures PlainCells(g) {
      assert g in multiset(entries);
    }
    RowsTell(sorted);
    assert out[|header|..] == Rows(sorted);
    assert TableSays(header, entries, sorted, out);
  }

  // Sorting in place.

  /** All but entry j are in order, and no entry after j is below it. */
  predicate Sinking(rows: seq<Gap>, j: nat)
    requires j < |rows|
  {
    && (forall p, q | 0 <= p < q < |rows| && p != j && q != j :: !Less(rows[q].id, rows[p].id))
    && (forall q | j < q < |rows| :: !Less(rows[q].id, rows[j].id))
  }

  lemma SinkOne(rows: seq<Gap>, j: nat)
    requires 0 < j < |rows| && Sinking(rows, j) && Less(rows[j].id, rows[j - 1].id)
    ensures Sinking(Swapped(rows, j), j - 1)
  {
    hide Less;
    LessAsymmetric(rows[j].id, rows[j - 1].id);
  }

  lemma Sunk(rows: seq<Gap>, j: nat)
    requires j < |rows| && Sinking(rows, j)
    requires j > 0 ==> !Less(rows[j].id, rows[j - 1].id)
    ensures ById(rows)
  {
    hide Less;
    forall p | 0 <= p < j ensures !Less(rows[j].id, rows[p].id) {
      if p < j - 1 && Less(rows[j].id, rows[p].id) {
        LessTotal(rows[p].id, rows[j - 1].id);
        if Less(rows[p].id, rows[j - 1].id) {
          LessTransitive(rows[j].id, rows[p].id, rows[j - 1].id);
        }
      }
    }
  }

  function Swapped(s: seq<Gap>, j: nat): seq<Gap>
    requires 0 < j < |s|
  {
    s[j - 1 := s[j]][j := s[j - 1]]
  }

  lemma SwapWithin(s: seq<Gap>, j: nat, k: nat)
    requires 0 < j < k <= |s|
    ensures multiset(Swapped(s, j)) == multiset(s)
    ensures Swapped(s, j)[..k] == Swapped(s[..k], j) && Swapped(s, j)[k..] == s[k..]
  {
  }

  /** Moves the entry at k down to its place among the sorted ones before it. */
  method Sink(a: array<Gap>, k: nat)
    requires k < a.Length && ById(a[..k])
    modifies a
    ensures ById(a[..k + 1]) && a[k + 1..] == old(a[k + 1..])
    ensures multiset(a[..]) == multiset(old(a[..]))
  {
    hide Less, Sinking, ById;
    var j := k;
    assert a[..k + 1][..k] == a[..k];
    FirstSinking(a[..k + 1]);
    while j > 0 && Less(a[j].id, a[j - 1].id)
      invariant 0 <= j <= k
      invariant multiset(a[..]) == multiset(old(a[..]))
      invariant a[k + 1..] == old(a[k + 1..])
      invariant Sinking(a[..k + 1], j)
    {
      SinkOne(a[..k + 1], j);
      SwapWithin(a[..], j, k + 1);
      SwapInPlace(a, j);
      j := j - 1;
    }
    Sunk(a[..k + 1], j);
  }

  method SwapInPlace(a: array<Gap>, j: nat)
    requires 0 < j < a.Length
    modifies a
    ensures a[..] == Swapped(old(a[..]), j)
  {
    a[j - 1], a[j] := a[j], a[j - 1];
  }

  lemma FirstSinking(rows: seq<Gap>)
    requires rows != [] && ById(rows[..|rows| - 1])
    ensures Sinking(rows, |rows| - 1)
  {
    hide Less;
    var before := rows[..|rows| - 1];
    assert forall p | 0 <= p < |before| :: before[p] == rows[p];
  }

  method SortById(a: array<Gap>)
    modifies a
    ensures ById(a[..]) && multiset(a[..]) == multiset(old(a[..]))
  {
    for k := 0 to a.Length
      invariant ById(a[..k]) && multiset(a[..]) == multiset(old(a[..]))
    {
      Sink(a, k);
    }
    assert a[..a.Length] == a[..];
  }

  /** The header, then one row per entry in order of ID. */
  ghost predicate IsPage(header: string, entries: seq<Gap>, out: string) {
    exists sorted: seq<Gap> :: multiset(sorted) == multiset(entries) && ById(sorted) && out == header + Rows(sorted)
  }

  /** Copies the entries, sorts the copy and writes the header and one row each. */
  method Markdown(header: string, entries: seq<Gap>) returns (out: string)
    ensures IsPage(header, entries, out)
    ensures (forall g | g in entries :: PlainCells(g)) ==> PageSays(header, entries, out)
  {
    var rows := new Gap[|entries|](i requires 0 <= i < |entries| => entries[i]);
    assert rows[..] == entries;
    SortById(rows);
    out := header;
    for i := 0 to rows.Length
      invariant out == header + Rows(rows[..i])
    {
      var g := rows[i];
      var notes := EscapePipes(g.notes);
      notes := OneLine(notes);
      assert rows[..i + 1][..i] == rows[..i];
      assert header + Rows(rows[..i]) + Row(g) == header + (Rows(rows[..i]) + Row(g));
      out := out
        + ("| `" + g.id + "` | `" + g.endpoint + "` | " + g.resource + " | " + g.status + " | " + notes + " |\n");
    }
    assert rows[..rows.Length] == rows[..];
    if forall g | g in entries :: PlainCells(g) { PageReadsBack(header, entries, out); }
  }

  // The order of the input does not matter.

  lemma Twice(s: seq<Gap>, i: nat, j: nat)
    requires i < j < |s| && s[i] == s[j]
    ensures multiset(s)[s[i]] >= 2
  {
    assert s == s[..j] + s[j..];
    assert s[..j][i] in s[..j] && s[j..][0] in s[j..];
  }

  lemma {:induction false} Once(s: seq<Gap>, g: Gap)
    requires DistinctIds(s)
    ensures multiset(s)[g] <= 1
  {
    if s != [] {
      var before, k := s[..|s| - 1], |s| - 1;
      Once(before, g);
      assert s == before + [s[k]];
      if g == s[k] {
        assert forall i | 0 <= i < |before| :: before[i].id != g.id;
      }
    }
  }

  lemma PermutationKeepsDistinct(s: seq<Gap>, t: seq<Gap>)
    requires DistinctIds(s) && multiset(s) == multiset(t)
    ensures DistinctIds(t)
  {
    forall i, j | 0 <= i < j < |t| ensures t[i].id != t[j].id {
      if t[i].id == t[j].id {
        assert t[i] in multiset(t) && t[j] in multiset(t);
        assert t[i] in s && t[j] in s;
        assert t[i] == t[j];
        Twice(t, i, j);
        Once(s, t[i]);
      }
    }
  }

  function IdsOf(s: seq<Gap>): seq<string> {
    seq(|s|, i requires 0 <= i < |s| => s[i].id)
  }

  lemma SortedStrictly(s: seq<Gap>)
    requires ById(s) && DistinctIds(s)
    ensures Ascending(IdsOf(s))
  {
    forall i, j | 0 <= i < j < |s| ensures Less(s[i].id, s[j].id) {
      LessTotal(s[i].id, s[j].id);
    }
  }

  lemma SameIds(s: seq<Gap>, t: seq<Gap>)
    requires multiset(s) == multiset(t)
    ensures forall k | k in IdsOf(s) :: k in IdsOf(t)
  {
    forall k | k in IdsOf(s) ensures k in IdsOf(t) {
      var i :| 0 <= i < |s| && s[i].id == k;
      assert s[i] in multiset(t);
      var j :| 0 <= j < |t| && t[j] == s[i];
      assert IdsOf(t)[j] == k;
    }
  }

  /** With distinct IDs there is one sorted order, and it ascends strictly. */
  lemma OneSortedOrder(entries: seq<Gap>, permuted: seq<Gap>, s: seq<Gap>, t: seq<Gap>)
    requires DistinctIds(entries) && multiset(entries) == multiset(permuted)
    requires multiset(s) == multiset(entries) && ById(s)
    requires multiset(t) == multiset(permuted) && ById(t)
    ensures s == t && Ascending(IdsOf(s))
  {
    PermutationKeepsDistinct(entries, s);
    PermutationKeepsDistinct(entries, t);
    SortedStrictly(s);
    SortedStrictly(t);
    SameIds(s, t);
    SameIds(t, s);
    AscendingUnique(IdsOf(s), IdsOf(t));
    assert |s| == |IdsOf(s)| == |IdsOf(t)| == |t|;
    forall i | 0 <= i < |s| ensures s[i] == t[i] {
      assert IdsOf(s)[i] == IdsOf(t)[i];
      assert s[i] in multiset(t);
      var j :| 0 <= j < |t| && t[j] == s[i];
      if i < j { assert t[i].id != t[j].id; }
      if j < i { assert t[j].id != t[i].id; }
    }
  }

  /** With distinct IDs, any permutation of the entries gives the same page. */
  lemma SamePage(header: string, entries: seq<Gap>, permuted: seq<Gap>, out: string, out': string)
    requires DistinctIds(entries) && multiset(entries) == multiset(permuted)
    requires IsPage(header, entries, out) && IsPage(header, permuted, out')
    ensures out == out'
  {
    var s :| multiset(s) == multiset(entries) && ById(s) && out == header + Rows(s);
    var t :| multiset(t) == multiset(permuted) && ById(t) && out' == header + Rows(t);
    OneSortedOrder(entries, permuted, s, t);
  }
}
