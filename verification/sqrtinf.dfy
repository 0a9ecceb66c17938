/** The compact text form of an upper-triangular square-root information
    matrix (include/isam/slam2d.h, `sqrtinf_to_string`): the entries on and
    above the diagonal, row by row, comma-separated between braces. */
module SqrtInf {
  import opened Outcomes
  import opened Matrices

  /** A (row, column) position in a matrix. */
  type Cell = (nat, nat)

  const SquareMessage := "slam2d::sqrtinf_to_string: matrix must be square"

  /** Cells (r, lo), (r, lo + 1), ..., (r, hi - 1), left to right. */
  function RowSpan(r: nat, lo: nat, hi: nat): seq<Cell>
    decreases hi
  {
    if hi <= lo then [] else RowSpan(r, lo, hi - 1) + [(r, hi - 1)]
  }

  /** The cells on and above the diagonal in the first k rows of an n x n
      matrix, in the order the serialiser visits them. */
  function Rows(k: nat, n: nat): seq<Cell>
  {
    if k == 0 then [] else Rows(k - 1, n) + RowSpan(k - 1, k - 1, n)
  }

  /** All upper-triangular cells of an n x n matrix, in visiting order. */
  function UpperCells(n: nat): seq<Cell>
  {
    Rows(n, n)
  }

  /** Row-major order: p comes strictly before q. */
  predicate Before(p: Cell, q: Cell)
  {
    p.0 < q.0 || (p.0 == q.0 && p.1 < q.1)
  }

  predicate RowMajor(cells: seq<Cell>)
  {
    forall i, j :: 0 <= i < j < |cells| ==> Before(cells[i], cells[j])
  }

  lemma {:induction false} RowSpanFacts(r: nat, lo: nat, hi: nat)
    ensures |RowSpan(r, lo, hi)| == if hi <= lo then 0 else hi - lo
    ensures forall p :: p in RowSpan(r, lo, hi) <==> p.0 == r && lo <= p.1 < hi
    ensures RowMajor(RowSpan(r, lo, hi))
    decreases hi
  {
    if hi > lo {
      RowSpanFacts(r, lo, hi - 1);
      var s := RowSpan(r, lo, hi - 1);
      assert RowSpan(r, lo, hi) == s + [(r, hi - 1)];
      forall p | p in s ensures Before(p, (r, hi - 1)) {
      }
    }
  }

  /** Concatenating two row-major runs where every cell of the first comes
      before every cell of the second gives a row-major run. */
  lemma RowMajorAppend(a: seq<Cell>, b: seq<Cell>)
    requires RowMajor(a) && RowMajor(b)
    requires forall p, q :: p in a && q in b ==> Before(p, q)
    ensures RowMajor(a + b)
  {
    var ab := a + b;
    forall i, j | 0 <= i < j < |ab| ensures Before(ab[i], ab[j]) {
      if j < |a| {
        assert ab[i] == a[i] && ab[j] == a[j];
      } else if i >= |a| {
        assert ab[i] == b[i - |a|] && ab[j] == b[j - |a|];
      } else {
        assert ab[i] in a && ab[j] in b;
      }
    }
  }

  /** The first k rows of the upper triangle hold k * (2n - k + 1) / 2 cells. */
  lemma {:induction false} RowsCount(k: nat, n: nat)
    requires k <= n
    ensures 2 * |Rows(k, n)| == k * (2 * n - k + 1)
  {
    if k > 0 {
      RowsCount(k - 1, n);
      RowSpanLength(k - 1, k - 1, n);
      RowsCountStep(k, n, |Rows(k - 1, n)|, |RowSpan(k - 1, k - 1, n)|);
    }
  }

  /** A span from lo to hi holds hi - lo cells, none if hi <= lo. */
  lemma {:induction false} RowSpanLength(r: nat, lo: nat, hi: nat)
    ensures |RowSpan(r, lo, hi)| == if hi <= lo then 0 else hi - lo
    decreases hi
  {
    if hi > lo {
      RowSpanLength(r, lo, hi - 1);
    }
  }

  /** The arithmetic of one more row: k - 1 rows plus row k - 1 of length
      n - k + 1 make k rows. */
  lemma RowsCountStep(k: int, n: int, before: int, row: int)
    requires 2 * before == (k - 1) * (2 * n - k + 2) && row == n - k + 1
    ensures 2 * (before + row) == k * (2 * n - k + 1)
  {
    assert (k - 1) * (2 * n - k + 2) == k * (2 * n - k + 2) - (2 * n - k + 2);
    assert k * (2 * n - k + 2) == k * (2 * n - k + 1) + k;
  }

  /** The first k rows of the upper triangle are exactly the cells (r, c)
      with r < k and r <= c < n. */
  lemma {:induction false} RowsMembers(k: nat, n: nat)
    ensures forall p :: p in Rows(k, n) <==> p.0 < k && p.0 <= p.1 < n
  {
    if k > 0 {
      var a, b := Rows(k - 1, n), RowSpan(k - 1, k - 1, n);
      RowsMembers(k - 1, n);
      RowSpanFacts(k - 1, k - 1, n);
      assert Rows(k, n) == a + b;
      forall p: Cell ensures p in a + b <==> p.0 < k && p.0 <= p.1 < n {
        assert p in a + b <==> p in a || p in b;
      }
    }
  }

  /** The first k rows of the upper triangle are listed in row-major order. */
  lemma {:induction false} RowsOrdered(k: nat, n: nat)
    ensures RowMajor(Rows(k, n))
  {
    if k > 0 {
      RowsOrdered(k - 1, n);
      RowsMembers(k - 1, n);
      RowSpanFacts(k - 1, k - 1, n);
      var a, b := Rows(k - 1, n), RowSpan(k - 1, k - 1, n);
      assert Rows(k, n) == a + b;
      forall p, q | p in a && q in b ensures Before(p, q) {
        assert p.0 < k - 1 && q.0 == k - 1;
      }
      RowMajorAppend(a, b);
    }
  }

  /** The serialiser visits n(n+1)/2 cells: every (r, c) with r <= c < n,
      each once, row 0 from column 0, then row 1 from column 1, and so on. */
  lemma UpperCellsExact(n: nat)
    ensures 2 * |UpperCells(n)| == n * (n + 1)
    ensures forall p :: p in UpperCells(n) <==> p.0 <= p.1 < n
    ensures RowMajor(UpperCells(n))
  {
    RowsCount(n, n);
    RowsMembers(n, n);
    RowsOrdered(n, n);
  }

  predicate InBounds<E>(m: Matrix<E>, cells: seq<Cell>)
  {
    forall i :: 0 <= i < |cells| ==> cells[i].0 < m.rows && cells[i].1 < m.cols
  }

  /** The text of each listed cell, in the order given. */
  function CellTexts<E>(m: Matrix<E>, cells: seq<Cell>, show: E -> string): (texts: seq<string>)
    requires InBounds(m, cells)
    ensures |texts| == |cells|
    ensures forall i :: 0 <= i < |cells| ==> texts[i] == show(m.entries[cells[i].0][cells[i].1])
  {
    if cells == [] then []
    else
      var last := cells[|cells| - 1];
      CellTexts(m, cells[..|cells| - 1], show) + [show(m.entries[last.0][last.1])]
  }

  /** Comma-separated concatenation: a comma between consecutive texts, none
      before the first or after the last. */
  function Join(texts: seq<string>): string
  {
    if |texts| == 0 then ""
    else if |texts| == 1 then texts[0]
    else Join(texts[..|texts| - 1]) + "," + texts[|texts| - 1]
  }

  function Encode(texts: seq<string>): string
  {
    "{" + Join(texts) + "}"
  }

  lemma UpperCellsInBounds<E>(m: Matrix<E>)
    requires m.rows == m.cols
    ensures InBounds(m, UpperCells(m.rows))
  {
    RowsMembers(m.rows, m.rows);
    var cells := UpperCells(m.rows);
    forall i | 0 <= i < |cells| ensures cells[i].0 < m.rows && cells[i].1 < m.cols {
      assert cells[i] in cells;
    }
  }

  /** Appending one text to a joined list adds a comma only if the list was
      not empty. */
  lemma JoinSnoc(texts: seq<string>, x: string)
    ensures Join(texts + [x]) == if texts == [] then x else Join(texts) + "," + x
  {
    assert (texts + [x])[..|texts|] == texts;
  }

  /** One more visited cell adds its text at the end. */
  lemma CellTextsSnoc<E>(m: Matrix<E>, cells: seq<Cell>, c: Cell, show: E -> string)
    requires InBounds(m, cells) && c.0 < m.rows && c.1 < m.cols
    ensures InBounds(m, cells + [c])
    ensures CellTexts(m, cells + [c], show) == CellTexts(m, cells, show) + [show(m.entries[c.0][c.1])]
  {
    assert (cells + [c])[..|cells|] == cells;
  }

  /** Visiting (row, col) extends the cells of the current row by one. */
  lemma RowSpanSnoc(prefix: seq<Cell>, done: seq<Cell>, row: nat, col: nat)
    requires done == prefix + RowSpan(row, row, col) && row <= col
    ensures done + [(row, col)] == prefix + RowSpan(row, row, col + 1)
  {
  }

  /** Writing a comma (unless nothing was written yet) and then one more text
      keeps the output equal to the opening brace and the joined texts. */
  lemma AppendText(s: string, texts: seq<string>, x: string)
    requires s == "{" + Join(texts)
    ensures (if texts == [] then s else s + ",") + x == "{" + Join(texts + [x])
  {
    JoinSnoc(texts, x);
    if texts != [] {
      assert s + "," + x == "{" + (Join(texts) + "," + x);
    }
  }

  /** What `sqrtinf_to_string` produces for m, with `show` as the stream
      formatting of one entry. */
  function SqrtInfText<E>(m: Matrix<E>, show: E -> string): (r: Result<string>)
    ensures r.Ok? <==> m.rows == m.cols
    ensures r.Fail? ==> r.msg == SquareMessage
    ensures r.Ok? ==> |r.value| >= 2 && r.value[0] == '{' && r.value[|r.value| - 1] == '}'
    ensures m.rows == m.cols == 0 ==> r == Ok("{}")
  {
    if m.rows != m.cols then Fail(SquareMessage)
    else
      UpperCellsInBounds(m);
      var texts := CellTexts(m, UpperCells(m.rows), show);
      assert m.rows == 0 ==> texts == [] && Encode(texts) == "{}";
      Ok(Encode(texts))
  }

  /** What the serialiser has written after visiting `done`: the opening
      brace and the visited entries, comma-separated. */
  ghost predicate Emitted<E>(m: Matrix<E>, show: E -> string, done: seq<Cell>, s: string, first: bool)
  {
    && InBounds(m, done)
    && (first <==> |done| == 0)
    && s == "{" + Join(CellTexts(m, done, show))
  }

  /** The inner loop of sqrtinf_to_string: row `row`, columns row .. n - 1. */
  method EmitRow<E>(m: Matrix<E>, show: E -> string, row: nat, s0: string, first0: bool)
    returns (s: string, first: bool)
    requires m.rows == m.cols && row < m.rows
    requires Emitted(m, show, Rows(row, m.rows), s0, first0)
    ensures Emitted(m, show, Rows(row + 1, m.rows), s, first)
  {
    s, first := s0, first0;
    ghost var prefix := Rows(row, m.rows);
    assert prefix == prefix + RowSpan(row, row, row);
    for col := row to m.cols
      invariant Emitted(m, show, prefix + RowSpan(row, row, col), s, first)
    {
      ghost var done := prefix + RowSpan(row, row, col);
      RowSpanSnoc(prefix, done, row, col);
      CellTextsSnoc(m, done, (row, col), show);
      AppendText(s, CellTexts(m, done, show), show(m.entries[row][col]));
      if first {
        first := false;
      } else {
        s := s + ",";
      }
      s := s + show(m.entries[row][col]);
    }
    assert Rows(row + 1, m.rows) == prefix + RowSpan(row, row, m.rows);
  }

  /** sqrtinf_to_string: fails on a non-square matrix, otherwise writes the
      upper triangle row by row (EmitRow) with a `first` flag that suppresses
      the comma before the first entry. */
  method SqrtInfToString<E>(m: Matrix<E>, show: E -> string) returns (r: Result<string>)
    ensures r == SqrtInfText(m, show)
  {
    var nrows := m.rows;
    var ncols := m.cols;
    if nrows != ncols {
      return Fail(SquareMessage);
    }
    var s := "{";
    var first := true;
    for row := 0 to nrows
      invariant Emitted(m, show, Rows(row, nrows), s, first)
    {
      s, first := EmitRow(m, show, row, s, first);
    }
    s := s + "}";
    r := Ok(s);
  }

  /** The inverse direction: cut a text at every comma. */
  function Split(s: string): (parts: seq<string>)
    ensures |parts| >= 1
  {
    if s == [] then [""]
    else
      var init := Split(s[..|s| - 1]);
      var c := s[|s| - 1];
      if c == ',' then init + [""]
      else init[..|init| - 1] + [init[|init| - 1] + [c]]
  }

  /** Reads back the list of entry texts from a brace-delimited encoding. */
  function Decode(s: string): Option<seq<string>>
  {
    if |s| >= 2 && s[0] == '{' && s[|s| - 1] == '}' then
      var body := s[1..|s| - 1];
      Some(if body == [] then [] else Split(body))
    else None
  }

  /** Appending comma-free text extends the last part of a split. */
  lemma {:induction false} SplitAppendPlain(a: string, b: string)
    requires ',' !in b
    ensures Split(a + b) == Split(a)[..|Split(a)| - 1] + [Split(a)[|Split(a)| - 1] + b]
    decreases |b|
  {
    if b == [] {
      var parts := Split(a);
      assert a + b == a;
      assert parts[|parts| - 1] + b == parts[|parts| - 1];
      assert parts[..|parts| - 1] + [parts[|parts| - 1]] == parts;
    } else {
      var b' := b[..|b| - 1];
      var c := b[|b| - 1];
      assert b == b' + [c];
      SplitAppendPlain(a, b');
      assert (a + b)[..|a + b| - 1] == a + b';
      assert (a + b)[|a + b| - 1] == c;
      assert Split(a)[|Split(a)| - 1] + b' + [c] == Split(a)[|Split(a)| - 1] + b;
    }
  }

  predicate Plain(texts: seq<string>)
  {
    forall i :: 0 <= i < |texts| ==> ',' !in texts[i]
  }

  /** Splitting a joined list of comma-free texts gives the list back. */
  lemma {:induction false} SplitJoin(texts: seq<string>)
    requires |texts| >= 1 && Plain(texts)
    ensures Split(Join(texts)) == texts
  {
    if |texts| == 1 {
      SplitAppendPlain("", texts[0]);
      assert "" + texts[0] == texts[0];
    } else {
      var init := texts[..|texts| - 1];
      var last := texts[|texts| - 1];
      SplitJoin(init);
      var j := Join(init) + ",";
      assert (j)[..|j| - 1] == Join(init);
      assert Split(j) == texts[..|texts| - 1] + [""];
      SplitAppendPlain(j, last);
      assert Join(texts) == j + last;
      assert "" + last == last;
      assert texts == init + [last];
    }
  }

  /** Decoding an encoding of non-empty, comma-free texts gives them back. */
  lemma EncodeDecode(texts: seq<string>)
    requires Plain(texts)
    requires forall i :: 0 <= i < |texts| ==> texts[i] != ""
    ensures Decode(Encode(texts)) == Some(texts)
  {
    var s := Encode(texts);
    assert s[1..|s| - 1] == Join(texts);
    if texts != [] {
      SplitJoin(texts);
    }
  }

  /** With entry texts that are non-empty and free of commas, the text of a
      square n x n matrix reads back as the texts of its n(n+1)/2
      upper-triangular entries in row-major order (UpperCellsExact,
      CellTexts). */
  lemma SqrtInfEntries<E>(m: Matrix<E>, show: E -> string)
    requires m.rows == m.cols
    requires forall e :: show(e) != "" && ',' !in show(e)
    ensures SqrtInfText(m, show).Ok?
    ensures InBounds(m, UpperCells(m.rows))
    ensures Decode(SqrtInfText(m, show).value) == Some(CellTexts(m, UpperCells(m.rows), show))
  {
    UpperCellsInBounds(m);
    EncodeDecode(CellTexts(m, UpperCells(m.rows), show));
  }
}
