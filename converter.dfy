/**
 * The text form pyfreefem uses to hand values to FreeFEM scripts
 * (pyfreefem/data_converter.py): `convert_to_freefem` renders a Python value
 * as "[n](a, b, ...)" text, `convert_from_freefem` parses such text back by
 * scanning it character by character and tracking bracket depth.
 */
module Converter {
  import opened Wrappers
  import opened Text

  // ---------------------------------------------------------------------
  // Values

  /**
   * The Python values the converter handles. A float is carried by its decimal
   * text (what `str` gives for it, or what `float` is applied to), since float
   * rounding is not modelled. A list and a tuple render alike and parse as a list.
   */
  datatype PyValue =
    | PyNone
    | PyBool(b: bool)
    | PyInt(i: int)
    | PyFloat(text: string)
    | PyStr(s: string)
    | PyList(items: seq<PyValue>)
    | PyArray(shape: seq<nat>, elems: seq<PyValue>)   // a numpy array, elements in C order
    | PyArrayOf(rows: seq<PyValue>)                    // `np.array(rows)` as the parser builds it
    | PyObject(text: string)                           // any other object, by its `str`

  /** `DataTransferError` raised for an array of a dimension FreeFEM has no form for. */
  datatype ConvError = UnsupportedDims(ndim: nat)

  predicate IsScalar(e: PyValue) { !(e.PyList? || e.PyArray? || e.PyArrayOf?) }

  function Product(shape: seq<nat>): nat
  {
    if shape == [] then 1 else shape[0] * Product(shape[1..])
  }

  /**
   * A value `convert_to_freefem` can be given: arrays hold as many scalar elements as
   * their shape says. `np.array(rows)` built by the parser has a shape numpy decides,
   * so it is not an input here.
   */
  predicate Renderable(v: PyValue)
    decreases v
  {
    match v
    case PyList(items) => forall i :: 0 <= i < |items| ==> Renderable(items[i])
    case PyArray(shape, elems) => |elems| == Product(shape) && forall i :: 0 <= i < |elems| ==> IsScalar(elems[i])
    case PyArrayOf(_) => false
    case _ => true
  }

  /** Every array inside `v` is one- or two-dimensional. */
  predicate DimsSupported(v: PyValue)
    decreases v
  {
    match v
    case PyList(items) => forall i :: 0 <= i < |items| ==> DimsSupported(items[i])
    case PyArray(shape, _) => |shape| == 1 || |shape| == 2
    case _ => true
  }

  // ---------------------------------------------------------------------
  // convert_to_freefem

  /** `str(e)` for an array element. */
  function ScalarText(e: PyValue): string
    requires IsScalar(e)
  {
    match e
    case PyNone => "None"
    case PyBool(b) => if b then "True" else "False"
    case PyInt(i) => IntToDecimal(i)
    case PyFloat(t) => t
    case PyStr(x) => x
    case PyObject(t) => t
  }

  /** `", ".join(ts)`. */
  function JoinComma(ts: seq<string>): string
  {
    if ts == [] then [] else if |ts| == 1 then ts[0] else ts[0] + (", " + JoinComma(ts[1..]))
  }

  /** "[n](t1, t2, ...)". */
  function ListText(n: nat, ts: seq<string>): string
  {
    "[" + NatToDecimal(n) + "](" + JoinComma(ts) + ")"
  }

  function ElemTexts(elems: seq<PyValue>): (ts: seq<string>)
    requires forall i :: 0 <= i < |elems| ==> IsScalar(elems[i])
    ensures |ts| == |elems|
  {
    seq(|elems|, i requires 0 <= i < |elems| => ScalarText(elems[i]))
  }

  /** Row `i` of a `rows` x `cols` array: "[cols](data[i, 0], ..., data[i, cols - 1])". */
  function RowText(rows: nat, cols: nat, elems: seq<PyValue>, i: nat): string
    requires |elems| == rows * cols && i < rows
    requires forall k :: 0 <= k < |elems| ==> IsScalar(elems[k])
  {
    RowBounds(rows, cols, i);
    ListText(cols, ElemTexts(elems[i * cols..(i + 1) * cols]))
  }

  lemma RowBounds(rows: nat, cols: nat, i: nat)
    requires i < rows
    ensures (i + 1) * cols <= rows * cols
  {
    assert (i + 1) * cols <= rows * cols by {
      assert i + 1 <= rows;
    }
  }

  /** The text of a two-dimensional array once `i` rows are written, as the loop builds it. */
  function MatrixPrefix(rows: nat, cols: nat, elems: seq<PyValue>, i: nat): string
    requires |elems| == rows * cols && i <= rows
    requires forall k :: 0 <= k < |elems| ==> IsScalar(elems[k])
  {
    if i == 0 then "["
    else MatrixPrefix(rows, cols, elems, i - 1) + RowText(rows, cols, elems, i - 1) + (if i - 1 < rows - 1 then ", " else "")
  }

  /** The text of a two-dimensional array: "[[c](row 0), [c](row 1), ...]". */
  function MatrixText(rows: nat, cols: nat, elems: seq<PyValue>): string
    requires |elems| == rows * cols
    requires forall k :: 0 <= k < |elems| ==> IsScalar(elems[k])
  {
    MatrixPrefix(rows, cols, elems, rows) + "]"
  }

  /**
   * `convert_to_freefem(v)`. An int or float is its `str`, and so is a bool, which is
   * an int to Python: that makes the 'true'/'false' branch of the source unreachable.
   * A string is wrapped in single quotes without escaping, a list or tuple becomes
   * "[n](...)" of its converted elements, a one-dimensional array the same of its
   * elements' `str`, a two-dimensional array a bracketed list of rows, and an array
   * of any other dimension is refused.
   */
  function ToFreeFem(v: PyValue): (r: Result<string, ConvError>)
    requires Renderable(v)
    ensures r.Ok? <==> DimsSupported(v)
    decreases v
  {
    match v
    case PyNone => Ok("None")
    case PyBool(b) => Ok(if b then "True" else "False")
    case PyInt(i) => Ok(IntToDecimal(i))
    case PyFloat(t) => Ok(t)
    case PyStr(x) => Ok("'" + x + "'")
    case PyList(items) =>
      var ts := RenderAll(items);
      if ts.Ok? then Ok(ListText(|items|, ts.value)) else Err(ts.error)
    case PyArray(shape, elems) =>
      if |shape| == 1 then Ok(ListText(shape[0], ElemTexts(elems)))
      else if |shape| == 2 then
        assert Product(shape) == shape[0] * shape[1] by { assert Product(shape[1..][1..]) == 1; }
        Ok(MatrixText(shape[0], shape[1], elems))
      else Err(UnsupportedDims(|shape|))
    case PyObject(t) => Ok(t)
  }

  /** The elements' texts, or the first element's error. */
  function RenderAll(items: seq<PyValue>): (r: Result<seq<string>, ConvError>)
    requires forall i :: 0 <= i < |items| ==> Renderable(items[i])
    ensures r.Ok? <==> forall i :: 0 <= i < |items| ==> DimsSupported(items[i])
    ensures r.Ok? ==> |r.value| == |items|
    decreases items
  {
    if items == [] then Ok([])
    else
      var h := ToFreeFem(items[0]);
      var t := RenderAll(items[1..]);
      if h.Err? then Err(h.error)
      else if t.Err? then Err(t.error)
      else Ok([h.value] + t.value)
  }

  /** The source's loop over the rows of a two-dimensional array. */
  method RenderMatrix(rows: nat, cols: nat, elems: seq<PyValue>) returns (text: string)
    requires |elems| == rows * cols
    requires forall k :: 0 <= k < |elems| ==> IsScalar(elems[k])
    ensures text == MatrixText(rows, cols, elems)
  {
    text := "[";
    for i := 0 to rows
      invariant text == MatrixPrefix(rows, cols, elems, i)
    {
      var rowText := RowText(rows, cols, elems, i);
      text := text + rowText;
      if i < rows - 1 {
        text := text + ", ";
      }
    }
    text := text + "]";
  }

  /** `convert_to_freefem(v)`, converting a list's elements one after the other. */
  method ConvertToFreeFem(v: PyValue) returns (r: Result<string, ConvError>)
    requires Renderable(v)
    ensures r == ToFreeFem(v)
    decreases v
  {
    match v {
      case PyList(items) =>
        var texts: seq<string> := [];
        for i := 0 to |items|
          invariant RenderAll(items[..i]).Ok? && texts == RenderAll(items[..i]).value
        {
          var t := ConvertToFreeFem(items[i]);
          RenderAllSnoc(items[..i], items[i]);
          assert items[..i + 1] == items[..i] + [items[i]];
          if t.Err? {
            RenderAllPrefixError(items, i + 1);
            return Err(t.error);
          }
          texts := texts + [t.value];
        }
        assert items[..|items|] == items;
        r := Ok(ListText(|items|, texts));
      case PyArray(shape, elems) =>
        if |shape| == 2 {
          assert Product(shape) == shape[0] * shape[1] by { assert Product(shape[1..][1..]) == 1; }
          var text := RenderMatrix(shape[0], shape[1], elems);
          r := Ok(text);
        } else {
          r := ToFreeFem(v);
        }
      case PyArrayOf(_) =>
        assert false;
      case _ =>
        r := ToFreeFem(v);
    }
  }

  /** Rendering one more element: its text is appended, or its error is the result. */
  lemma {:induction false} RenderAllSnoc(items: seq<PyValue>, x: PyValue)
    requires forall i :: 0 <= i < |items| ==> Renderable(items[i])
    requires Renderable(x) && RenderAll(items).Ok?
    ensures RenderAll(items + [x]) == if ToFreeFem(x).Ok? then Ok(RenderAll(items).value + [ToFreeFem(x).value]) else Err(ToFreeFem(x).error)
    decreases items
  {
    if items != [] {
      assert (items + [x])[0] == items[0];
      assert (items + [x])[1..] == items[1..] + [x];
      RenderAllSnoc(items[1..], x);
      if ToFreeFem(x).Ok? {
        var h := ToFreeFem(items[0]).value;
        var a := RenderAll(items[1..]).value;
        assert [h] + a + [ToFreeFem(x).value] == [h] + (a + [ToFreeFem(x).value]);
      }
    } else {
      assert items + [x] == [x] && [x][1..] == [];
      if ToFreeFem(x).Ok? {
        assert RenderAll(items).value + [ToFreeFem(x).value] == [ToFreeFem(x).value] + [];
      }
    }
  }

  /** When a prefix of the elements fails, so does the whole list, with the same error. */
  lemma {:induction false} RenderAllPrefixError(items: seq<PyValue>, n: nat)
    requires forall i :: 0 <= i < |items| ==> Renderable(items[i])
    requires n <= |items| && RenderAll(items[..n]).Err?
    ensures RenderAll(items) == RenderAll(items[..n])
    decreases n
  {
    assert n > 0;
    if ToFreeFem(items[0]).Ok? {
      assert items[..n][1..] == items[1..][..n - 1];
      RenderAllPrefixError(items[1..], n - 1);
    }
  }

  // ---------------------------------------------------------------------
  // The two regular expressions of convert_from_freefem

  /** The number of ASCII digits `s` starts with. */
  function DigitRun(s: string): (n: nat)
    ensures n <= |s|
  {
    if s != [] && IsDigit(s[0]) then 1 + DigitRun(s[1..]) else 0
  }

  /** The text up to the first line break, which `.` in a pattern does not cross. */
  function FirstLine(s: string): (r: string)
    ensures |r| <= |s|
  {
    s[..IndexOf(s, '\n')]
  }

  /** The index of the last `c` in `s`. */
  function LastIndexOf(s: string, c: char): (r: Option<nat>)
    ensures r.Some? ==> r.value < |s| && s[r.value] == c
    ensures r.None? <==> c !in s
  {
    if s == [] then None
    else if s[|s| - 1] == c then Some(|s| - 1)
    else
      var r := LastIndexOf(s[..|s| - 1], c);
      assert c in s ==> c in s[..|s| - 1] by {
        if c in s {
          var j :| 0 <= j < |s| && s[j] == c;
          assert s[..|s| - 1][j] == c;
        }
      }
      r
  }

  /**
   * `re.match(r'\[(\d+)\]\((.*)\)', t)`: '[' and digits, "](", then the longest text
   * on the same line that is followed by ')'. The group holding that text is the result.
   */
  function ArrayMatch(t: string): (content: Option<string>)
    ensures content.Some? ==> |content.value| + 5 <= |t|
  {
    if t == [] || t[0] != '[' then None
    else
      var k := 1 + DigitRun(t[1..]);
      if k == 1 || k + 1 >= |t| || t[k] != ']' || t[k + 1] != '(' then None
      else
        var line := FirstLine(t[k + 2..]);
        match LastIndexOf(line, ')')
        case None => None
        case Some(j) => Some(line[..j])
  }

  /** `re.match(r'\[(.*)\]', t)`: '[', then the longest text on the same line followed by ']'. */
  function MatrixMatch(t: string): (content: Option<string>)
    ensures content.Some? ==> |content.value| + 2 <= |t|
  {
    if t == [] || t[0] != '[' then None
    else
      var line := FirstLine(t[1..]);
      match LastIndexOf(line, ']')
      case None => None
      case Some(j) => Some(line[..j])
  }

  // ---------------------------------------------------------------------
  // The two character scans

  /** The scan state: bracket depth, the piece being collected, and the pieces so far. */
  datatype Scan = Scan(level: int, current: string, pieces: seq<string>)

  const Start := Scan(0, "", [])

  /**
   * One character of the "[n](...)" content: '(' and '[' go one level deeper, ')' and ']'
   * one level up, and only a ',' at level 0 ends a piece.
   */
  function SplitStep(st: Scan, ch: char): Scan
  {
    if ch == '(' || ch == '[' then Scan(st.level + 1, st.current + [ch], st.pieces)
    else if ch == ')' || ch == ']' then Scan(st.level - 1, st.current + [ch], st.pieces)
    else if ch == ',' && st.level == 0 then Scan(st.level, "", st.pieces + [Strip(st.current)])
    else Scan(st.level, st.current + [ch], st.pieces)
  }

  function SplitFold(st: Scan, t: string): Scan
    decreases |t|
  {
    if t == [] then st else SplitStep(SplitFold(st, t[..|t| - 1]), t[|t| - 1])
  }

  /**
   * One character of the two-dimensional content: only '[' and ']' count depth; a '['
   * at level 0 after some text restarts the piece, a ']' back to level 0 ends a row,
   * and a ',' at level 0 ends a non-blank piece and is dropped otherwise.
   */
  function RowStep(st: Scan, ch: char): Scan
  {
    if ch == '[' then
      Scan(st.level + 1, if st.level == 0 && Strip(st.current) != [] then [ch] else st.current + [ch], st.pieces)
    else if ch == ']' then
      if st.level - 1 == 0 then Scan(0, "", st.pieces + [Strip(st.current + [ch])])
      else Scan(st.level - 1, st.current + [ch], st.pieces)
    else if ch == ',' && st.level == 0 then
      if Strip(st.current) != [] then Scan(st.level, "", st.pieces + [Strip(st.current)]) else st
    else Scan(st.level, st.current + [ch], st.pieces)
  }

  function RowFold(st: Scan, t: string): Scan
    decreases |t|
  {
    if t == [] then st else RowStep(RowFold(st, t[..|t| - 1]), t[|t| - 1])
  }

  /** After the scan, a non-blank remainder is the last piece. */
  function Finish(st: Scan): seq<string>
  {
    if Strip(st.current) != [] then st.pieces + [Strip(st.current)] else st.pieces
  }

  predicate Bounded(ps: seq<string>, n: nat) { forall i :: 0 <= i < |ps| ==> |ps[i]| <= n }

  /** A scan state whose texts are at most `n` long. */
  predicate Within(st: Scan, n: nat) { |st.current| <= n && Bounded(st.pieces, n) }

  lemma SplitStepWithin(st: Scan, ch: char, n: nat)
    requires Within(st, n)
    ensures Within(SplitStep(st, ch), n + 1)
  {
    var r := SplitStep(st, ch);
    forall i | 0 <= i < |r.pieces| ensures |r.pieces[i]| <= n + 1 {
      if i < |st.pieces| { assert r.pieces[i] == st.pieces[i]; }
    }
  }

  lemma RowStepWithin(st: Scan, ch: char, n: nat)
    requires Within(st, n)
    ensures Within(RowStep(st, ch), n + 1)
  {
    var r := RowStep(st, ch);
    if ch == ']' && st.level - 1 == 0 {
      var p := Strip(st.current + [ch]);
      assert r.pieces == st.pieces + [p];
      forall i | 0 <= i < |r.pieces| ensures |r.pieces[i]| <= n + 1 {
        if i < |st.pieces| { assert r.pieces[i] == st.pieces[i]; }
      }
    } else if ch == ',' && st.level == 0 && ch != '[' && ch != ']' {
      if Strip(st.current) != [] {
        assert r.pieces == st.pieces + [Strip(st.current)];
        forall i | 0 <= i < |r.pieces| ensures |r.pieces[i]| <= n + 1 {
          if i < |st.pieces| { assert r.pieces[i] == st.pieces[i]; }
        }
      }
    } else {
      assert r.pieces == st.pieces;
    }
  }

  /** The pieces and the current text of a scan over `t` are no longer than `t`. */
  lemma {:induction false} SplitFoldWithin(t: string)
    ensures Within(SplitFold(Start, t), |t|)
    decreases |t|
  {
    if t != [] {
      SplitFoldWithin(t[..|t| - 1]);
      SplitStepWithin(SplitFold(Start, t[..|t| - 1]), t[|t| - 1], |t| - 1);
    }
  }

  lemma {:induction false} RowFoldWithin(t: string)
    ensures Within(RowFold(Start, t), |t|)
    decreases |t|
  {
    if t != [] {
      RowFoldWithin(t[..|t| - 1]);
      RowStepWithin(RowFold(Start, t[..|t| - 1]), t[|t| - 1], |t| - 1);
    }
  }

  lemma FinishWithin(st: Scan, n: nat)
    requires Within(st, n)
    ensures Bounded(Finish(st), n)
  {
    var r := Finish(st);
    forall i | 0 <= i < |r| ensures |r[i]| <= n {
      if i < |st.pieces| { assert r[i] == st.pieces[i]; }
    }
  }

  /** The pieces of "[n](...)" content. */
  function SplitPieces(content: string): (ps: seq<string>)
    ensures Bounded(ps, |content|)
  {
    SplitFoldWithin(content);
    FinishWithin(SplitFold(Start, content), |content|);
    Finish(SplitFold(Start, content))
  }

  /** The row pieces of two-dimensional content. */
  function RowPieces(content: string): (ps: seq<string>)
    ensures Bounded(ps, |content|)
  {
    RowFoldWithin(content);
    FinishWithin(RowFold(Start, content), |content|);
    Finish(RowFold(Start, content))
  }

  // ---------------------------------------------------------------------
  // convert_from_freefem

  /** A text in single quotes loses them; any other text is returned as it is. */
  function Unquote(s: string): PyValue
  {
    if |s| >= 1 && s[0] == '\'' && s[|s| - 1] == '\'' then PyStr(if |s| >= 2 then s[1..|s| - 1] else [])
    else PyStr(s)
  }

  /**
   * A token that is not a list: without '.' or 'e' it is an int when `int` accepts it;
   * otherwise a float when `float` accepts it; failing that, text.
   */
  function ParseToken(s: string): PyValue
  {
    if '.' !in s && 'e' !in Lower(s) then
      match ParseInt(s)
      case Some(n) => PyInt(n)
      case None => Unquote(s)
    else if IsFloatLiteral(s) then PyFloat(s)
    else Unquote(s)
  }

  predicate AllLists(rows: seq<PyValue>) { forall i :: 0 <= i < |rows| ==> rows[i].PyList? }

  /**
   * `convert_from_freefem(s)` with no dtype: blank text is None, "true"/"false" in any
   * case are bools, "[n](...)" is the list of its pieces parsed in turn (whatever n
   * says), "[...]" holding brackets is the list of its row pieces parsed in turn, made
   * a numpy array when every row is a list, and anything else is a token.
   */
  function FromFreeFem(s: string): PyValue
    decreases |s| + 1, 0
  {
    if IsBlank(s) then PyNone
    else if Lower(s) == "true" then PyBool(true)
    else if Lower(s) == "false" then PyBool(false)
    else
      var t := Strip(s);
      var am := ArrayMatch(t);
      if am.Some? then PyList(ParseAll(SplitPieces(am.value), |s|))
      else
        var mm := MatrixMatch(t);
        if mm.Some? && '[' in mm.value && ']' in mm.value then
          var rows := ParseAll(RowPieces(mm.value), |s|);
          if AllLists(rows) then PyArrayOf(rows) else PyList(rows)
        else ParseToken(s)
  }

  /** Each piece parsed in turn. */
  function ParseAll(ps: seq<string>, bound: nat): (r: seq<PyValue>)
    requires forall i :: 0 <= i < |ps| ==> |ps[i]| < bound
    ensures |r| == |ps|
    decreases bound, |ps|
  {
    if ps == [] then [] else [FromFreeFem(ps[0])] + ParseAll(ps[1..], bound)
  }

  /** Parsing one more piece appends its value. */
  lemma {:induction false} ParseAllSnoc(ps: seq<string>, p: string, bound: nat)
    requires forall i :: 0 <= i < |ps| ==> |ps[i]| < bound
    requires |p| < bound
    ensures ParseAll(ps + [p], bound) == ParseAll(ps, bound) + [FromFreeFem(p)]
    decreases |ps|
  {
    if ps != [] {
      assert (ps + [p])[1..] == ps[1..] + [p];
      ParseAllSnoc(ps[1..], p, bound);
    }
  }

  /** The bound a list of pieces is parsed under does not change the values. */
  lemma {:induction false} ParseAllBound(ps: seq<string>, b1: nat, b2: nat)
    requires forall i :: 0 <= i < |ps| ==> |ps[i]| < b1 && |ps[i]| < b2
    ensures ParseAll(ps, b1) == ParseAll(ps, b2)
    decreases |ps|
  {
    if ps != [] {
      ParseAllBound(ps[1..], b1, b2);
    }
  }

  /** `convert_from_freefem(s)`, with the source's two scanning loops. */
  method ConvertFromFreeFem(s: string) returns (r: PyValue)
    ensures r == FromFreeFem(s)
    decreases |s|, 1
  {
    if IsBlank(s) { return PyNone; }
    var low := Lower(s);
    if low == "true" { return PyBool(true); }
    if low == "false" { return PyBool(false); }
    var t := Strip(s);
    var am := ArrayMatch(t);
    if am.Some? {
      var elements := ConvertElements(am.value, |s|);
      return PyList(elements);
    }
    var mm := MatrixMatch(t);
    if mm.Some? && '[' in mm.value && ']' in mm.value {
      var rows := ConvertRows(mm.value, |s|);
      if AllLists(rows) { return PyArrayOf(rows); }
      return PyList(rows);
    }
    r := ParseToken(s);
  }

  /** The loop over "[n](...)" content: each piece at a depth-0 comma, then the rest. */
  method ConvertElements(content: string, ghost bound: nat) returns (elements: seq<PyValue>)
    requires |content| < bound
    ensures elements == ParseAll(SplitPieces(content), bound)
    decreases bound, 0
  {
    var level := 0;
    var current := "";
    elements := [];
    ghost var pieces: seq<string> := [];
    for i := 0 to |content|
      invariant Scan(level, current, pieces) == SplitFold(Start, content[..i])
      invariant |current| <= i && Bounded(pieces, i)
      invariant elements == ParseAll(pieces, bound)
    {
      var ch := content[i];
      assert content[..i + 1][..i] == content[..i];
      SplitFoldWithin(content[..i + 1]);
      if ch == '(' || ch == '[' {
        level := level + 1;
        current := current + [ch];
      } else if ch == ')' || ch == ']' {
        level := level - 1;
        current := current + [ch];
      } else if ch == ',' && level == 0 {
        var piece := Strip(current);
        var e := ConvertFromFreeFem(piece);
        ParseAllSnoc(pieces, piece, bound);
        elements := elements + [e];
        pieces := pieces + [piece];
        current := "";
      } else {
        current := current + [ch];
      }
    }
    assert content[..|content|] == content;
    if Strip(current) != [] {
      var piece := Strip(current);
      var e := ConvertFromFreeFem(piece);
      ParseAllSnoc(pieces, piece, bound);
      elements := elements + [e];
    }
  }

  /** The loop over two-dimensional content: a row at each ']' back to depth 0. */
  method ConvertRows(content: string, ghost bound: nat) returns (rows: seq<PyValue>)
    requires |content| < bound
    ensures rows == ParseAll(RowPieces(content), bound)
    decreases bound, 0
  {
    var level := 0;
    var current := "";
    rows := [];
    ghost var pieces: seq<string> := [];
    for i := 0 to |content|
      invariant Scan(level, current, pieces) == RowFold(Start, content[..i])
      invariant |current| <= i && Bounded(pieces, i)
      invariant rows == ParseAll(pieces, bound)
    {
      var ch := content[i];
      assert content[..i + 1][..i] == content[..i];
      RowFoldWithin(content[..i + 1]);
      ghost var next := RowStep(Scan(level, current, pieces), ch);
      if ch == '[' {
        if level == 0 && Strip(current) != [] {
          current := [ch];
        } else {
          current := current + [ch];
        }
        level := level + 1;
      } else if ch == ']' {
        level := level - 1;
        current := current + [ch];
        if level == 0 {
          var piece := Strip(current);
          var e := ConvertFromFreeFem(piece);
          ParseAllSnoc(pieces, piece, bound);
          rows := rows + [e];
          pieces := pieces + [piece];
          current := "";
        }
      } else if ch == ',' && level == 0 {
        if Strip(current) != [] {
          var piece := Strip(current);
          var e := ConvertFromFreeFem(piece);
          ParseAllSnoc(pieces, piece, bound);
          rows := rows + [e];
          pieces := pieces + [piece];
          current := "";
        }
      } else {
        current := current + [ch];
      }
      assert Scan(level, current, pieces) == next;
    }
    assert content[..|content|] == content;
    if Strip(current) != [] {
      var piece := Strip(current);
      var e := ConvertFromFreeFem(piece);
      ParseAllSnoc(pieces, piece, bound);
      rows := rows + [e];
    }
  }
}
