/**
 * What the text form keeps and what it loses: values built from ints, bools,
 * strings free of the separator characters, and lists of them come back from
 * `convert_from_freefem(convert_to_freefem(v))` unchanged; None, one- and
 * two-dimensional arrays do not.
 */
module ConverterProperties {
  import opened Wrappers
  import opened Text
  import opened Converter

  // ---------------------------------------------------------------------
  // Values that survive the trip

  /** A string the scan of `convert_from_freefem` passes over without splitting or cutting it. */
  predicate SafeText(x: string)
  {
    forall i :: 0 <= i < |x| ==> x[i] != '(' && x[i] != ')' && x[i] != '[' && x[i] != ']' && x[i] != ',' && x[i] != '\n'
  }

  /** Ints, bools, safe strings, and lists (or tuples) of these. */
  predicate Plain(v: PyValue)
    decreases v
  {
    match v
    case PyInt(_) => true
    case PyBool(_) => true
    case PyStr(x) => SafeText(x)
    case PyList(items) => forall i :: 0 <= i < |items| ==> Plain(items[i])
    case _ => false
  }

  predicate AllPlain(items: seq<PyValue>) { forall i :: 0 <= i < |items| ==> Plain(items[i]) }

  lemma PlainRenders(v: PyValue)
    requires Plain(v)
    ensures Renderable(v) && DimsSupported(v)
    decreases v
  {
    if v.PyList? {
      forall i | 0 <= i < |v.items| ensures Renderable(v.items[i]) && DimsSupported(v.items[i]) {
        PlainRenders(v.items[i]);
      }
    }
  }

  lemma AllPlainRender(items: seq<PyValue>)
    requires AllPlain(items)
    ensures forall i :: 0 <= i < |items| ==> Renderable(items[i]) && DimsSupported(items[i])
  {
    forall i | 0 <= i < |items| ensures Renderable(items[i]) && DimsSupported(items[i]) {
      PlainRenders(items[i]);
    }
  }

  /** The text `convert_to_freefem` gives a plain value. */
  function TextOf(v: PyValue): string
    requires Plain(v)
  {
    PlainRenders(v);
    ToFreeFem(v).value
  }

  /** The texts of plain elements. */
  function TextsOf(items: seq<PyValue>): (ts: seq<string>)
    requires AllPlain(items)
    ensures |ts| == |items|
  {
    AllPlainRender(items);
    RenderAll(items).value
  }

  /** The texts of a list's elements: the first element's text, then the rest's. */
  lemma TextsOfCons(items: seq<PyValue>)
    requires AllPlain(items) && items != []
    ensures AllPlain(items[1..])
    ensures TextsOf(items) == [TextOf(items[0])] + TextsOf(items[1..])
  {
    assert AllPlain(items[1..]) by {
      forall i | 0 <= i < |items| - 1 ensures Plain(items[1..][i]) { assert items[1..][i] == items[i + 1]; }
    }
    AllPlainRender(items);
    AllPlainRender(items[1..]);
  }

  lemma TextOfList(items: seq<PyValue>)
    requires AllPlain(items)
    ensures Plain(PyList(items))
    ensures TextOf(PyList(items)) == ListText(|items|, TextsOf(items))
  {
    AllPlainRender(items);
  }

  // ---------------------------------------------------------------------
  // Scanning facts

  /** A character that leaves the "[n](...)" scan's depth alone and does not end a piece at `level`. */
  predicate Quiet(c: char, level: int)
  {
    c != '(' && c != ')' && c != '[' && c != ']' && (c != ',' || level != 0)
  }

  predicate QuietText(t: string, level: int) { forall i :: 0 <= i < |t| ==> Quiet(t[i], level) }

  /** Scanning quiet text only collects it. */
  lemma {:induction false} QuietFold(st: Scan, t: string)
    requires QuietText(t, st.level)
    ensures SplitFold(st, t) == Scan(st.level, st.current + t, st.pieces)
    decreases |t|
  {
    if t == [] {
      assert st.current + t == st.current;
    } else {
      var u := t[..|t| - 1];
      assert QuietText(u, st.level) by {
        forall i | 0 <= i < |u| ensures Quiet(u[i], st.level) { assert u[i] == t[i]; }
      }
      QuietFold(st, u);
      assert Quiet(t[|t| - 1], st.level);
      assert u + [t[|t| - 1]] == t;
      assert st.current + u + [t[|t| - 1]] == st.current + t;
    }
  }

  /** Scanning `a + b` is scanning `a`, then `b`. */
  lemma {:induction false} SplitFoldConcat(st: Scan, a: string, b: string)
    ensures SplitFold(st, a + b) == SplitFold(SplitFold(st, a), b)
    decreases |b|
  {
    if b == [] {
      assert a + b == a;
    } else {
      var b' := b[..|b| - 1];
      assert (a + b)[..|a + b| - 1] == a + b';
      SplitFoldConcat(st, a, b');
    }
  }

  lemma {:induction false} RowFoldConcat(st: Scan, a: string, b: string)
    ensures RowFold(st, a + b) == RowFold(RowFold(st, a), b)
    decreases |b|
  {
    if b == [] {
      assert a + b == a;
    } else {
      var b' := b[..|b| - 1];
      assert (a + b)[..|a + b| - 1] == a + b';
      RowFoldConcat(st, a, b');
    }
  }

  /** The text of an int, a bool or a safe string has no bracket and no comma. */
  lemma LeafQuiet(v: PyValue, level: int)
    requires Plain(v) && !v.PyList?
    ensures QuietText(TextOf(v), level)
  {
    var t := TextOf(v);
    match v {
      case PyInt(n) =>
        var m: nat := if n < 0 then -n else n;
        var d := NatToDecimal(m);
        forall i | 0 <= i < |t| ensures Quiet(t[i], level) {
          if n < 0 {
            if i > 0 { assert t[i] == d[i - 1]; }
          } else {
            assert t[i] == d[i];
          }
        }
      case PyBool(b) =>
      case PyStr(x) =>
        forall i | 0 <= i < |t| ensures Quiet(t[i], level) {
          if 0 < i < |t| - 1 { assert t[i] == x[i - 1]; }
        }
    }
  }

  /** A plain value's text is not blank, does not start or end with whitespace, and stays on one line. */
  lemma {:induction false} TextShape(v: PyValue)
    requires Plain(v)
    ensures var t := TextOf(v); t != [] && !IsSpace(t[0]) && !IsSpace(t[|t| - 1]) && '\n' !in t
    decreases v
  {
    var t := TextOf(v);
    match v {
      case PyInt(n) =>
        var m: nat := if n < 0 then -n else n;
        var d := NatToDecimal(m);
        assert t[|t| - 1] == d[|d| - 1];
        LeafQuiet(v, 0);
        assert '\n' !in t by {
          forall i | 0 <= i < |t| ensures t[i] != '\n' {
            if n < 0 && i > 0 { assert t[i] == d[i - 1]; } else if n >= 0 { assert t[i] == d[i]; }
          }
        }
      case PyBool(b) =>
      case PyStr(x) =>
        assert '\n' !in t by {
          forall i | 0 <= i < |t| ensures t[i] != '\n' {
            if 0 < i < |t| - 1 { assert t[i] == x[i - 1]; }
          }
        }
      case PyList(items) =>
        TextOfList(items);
        var ts := TextsOf(items);
        forall i | 0 <= i < |ts| ensures '\n' !in ts[i] {
          TextsAt(items, i);
          TextShape(items[i]);
        }
        JoinCommaOneLine(ts);
        ListTextOneLine(|items|, ts);
    }
  }

  /** The `i`th text of a list's elements is the `i`th element's text. */
  lemma {:induction false} TextsAt(items: seq<PyValue>, i: nat)
    requires AllPlain(items) && i < |items|
    ensures TextsOf(items)[i] == TextOf(items[i])
    decreases i
  {
    TextsOfCons(items);
    if i > 0 {
      TextsAt(items[1..], i - 1);
    }
  }

  lemma {:induction false} JoinCommaOneLine(ts: seq<string>)
    requires forall i :: 0 <= i < |ts| ==> '\n' !in ts[i]
    ensures '\n' !in JoinComma(ts)
    decreases |ts|
  {
    if |ts| > 1 {
      JoinCommaOneLine(ts[1..]);
      assert '\n' !in ts[0];
    }
  }

  lemma ListTextOneLine(n: nat, ts: seq<string>)
    requires '\n' !in JoinComma(ts)
    ensures '\n' !in ListText(n, ts)
  {
    var d := NatToDecimal(n);
    assert '\n' !in d by {
      forall i | 0 <= i < |d| ensures d[i] != '\n' { assert IsDigit(d[i]); }
    }
  }

  /** Scanning one character is one step. */
  lemma FoldOne(st: Scan, c: char)
    ensures SplitFold(st, [c]) == SplitStep(st, c)
  {
    assert [c][..0] == [];
  }

  /** Scanning one more character is one more step. */
  lemma FoldSnoc(st: Scan, t: string, c: char)
    ensures SplitFold(st, t + [c]) == SplitStep(SplitFold(st, t), c)
  {
    assert (t + [c])[..|t|] == t;
  }

  /** "[digits](" goes one level down, stays there over the digits, and returns there after "](". */
  lemma ScanOpen(st: Scan, d: string, a: string)
    requires AllDigits(d) && st.level >= 0
    requires a == ['['] + d + [']'] + ['(']
    ensures SplitFold(st, a) == Scan(st.level + 1, st.current + a, st.pieces)
  {
    var L := st.level;
    FoldOne(st, '[');
    var s1 := SplitStep(st, '[');
    assert s1 == Scan(L + 1, st.current + ['['], st.pieces);
    assert QuietText(d, L + 1) by {
      forall i | 0 <= i < |d| ensures Quiet(d[i], L + 1) { assert IsDigit(d[i]); }
    }
    QuietFold(s1, d);
    SplitFoldConcat(st, ['['], d);
    var b := ['['] + d;
    var c2 := st.current + b;
    assert SplitFold(st, b) == Scan(L + 1, c2, st.pieces);
    FoldSnoc(st, b, ']');
    FoldSnoc(st, b + [']'], '(');
    assert c2 + [']'] + ['('] == st.current + a;
  }

  /** A plain value's text, scanned below a bracket or at the top, only adds to the piece in hand. */
  lemma {:induction false} ScanText(v: PyValue, st: Scan)
    requires Plain(v) && st.level >= 0
    ensures SplitFold(st, TextOf(v)) == Scan(st.level, st.current + TextOf(v), st.pieces)
    decreases v
  {
    if v.PyList? {
      var items := v.items;
      TextOfList(items);
      var d := NatToDecimal(|items|);
      var j := JoinComma(TextsOf(items));
      var a := "[" + d + "](";
      assert TextOf(v) == a + j + ")";
      assert a == ['['] + d + [']'] + ['('];
      ScanOpen(st, d, a);
      var s3 := SplitFold(st, a);
      ScanJoin(items, s3);
      SplitFoldConcat(st, a, j);
      var s4 := SplitFold(st, a + j);
      assert s4 == Scan(st.level + 1, st.current + a + j, st.pieces);
      FoldSnoc(st, a + j, ')');
      assert a + j + [')'] == TextOf(v);
      assert st.current + a + j + [')'] == st.current + TextOf(v);
    } else {
      LeafQuiet(v, st.level);
      QuietFold(st, TextOf(v));
    }
  }

  /** The elements' texts joined by ", ", scanned inside a bracket, only add to the piece in hand. */
  lemma {:induction false} ScanJoin(items: seq<PyValue>, st: Scan)
    requires AllPlain(items) && st.level >= 1
    ensures SplitFold(st, JoinComma(TextsOf(items))) == Scan(st.level, st.current + JoinComma(TextsOf(items)), st.pieces)
    decreases items
  {
    var ts := TextsOf(items);
    if |items| == 0 {
      assert st.current + JoinComma(ts) == st.current;
    } else {
      TextsOfCons(items);
      var t0 := TextOf(items[0]);
      ScanText(items[0], st);
      if |items| > 1 {
        var tail := TextsOf(items[1..]);
        var rest := JoinComma(tail);
        assert ts == [t0] + tail;
        JoinCommaCons(ts);
        var s1 := Scan(st.level, st.current + t0, st.pieces);
        ScanSeparator(s1);
        var s2 := Scan(st.level, st.current + t0 + ", ", st.pieces);
        ScanJoin(items[1..], s2);
        SplitFoldConcat(st, t0, ", ");
        SplitFoldConcat(st, t0 + ", ", rest);
        assert t0 + ", " + rest == JoinComma(ts);
        assert st.current + t0 + ", " + rest == st.current + JoinComma(ts);
      }
    }
  }

  /** ", " joins two texts. */
  lemma JoinCommaCons(ts: seq<string>)
    requires |ts| > 1
    ensures JoinComma(ts) == ts[0] + ", " + JoinComma(ts[1..])
  {
  }

  /** Inside a bracket ", " is collected like any other text. */
  lemma ScanSeparator(st: Scan)
    requires st.level >= 1
    ensures SplitFold(st, ", ") == Scan(st.level, st.current + ", ", st.pieces)
  {
    assert QuietText(", ", st.level);
    QuietFold(st, ", ");
  }

  lemma CommaThenSpace(st: Scan)
    requires st.level == 0
    ensures SplitStep(SplitStep(st, ','), ' ') == Scan(0, " ", st.pieces + [Strip(st.current)])
  {
    assert SplitStep(st, ',') == Scan(0, "", st.pieces + [Strip(st.current)]);
  }

  /** ", " at depth 0 ends the piece in hand and starts the next with the space. */
  lemma CommaSpace(st: Scan)
    requires st.level == 0
    ensures SplitFold(st, ", ") == Scan(0, " ", st.pieces + [Strip(st.current)])
  {
    FoldOne(st, ',');
    FoldSnoc(st, [','], ' ');
    CommaThenSpace(st);
    assert [','] + [' '] == ", ";
  }

  lemma ConcatAssoc<T>(a: seq<T>, b: seq<T>, c: seq<T>)
    ensures a + b + c == a + (b + c)
  {
  }

  lemma FinishPiece(st: Scan)
    requires Strip(st.current) != []
    ensures Finish(st) == st.pieces + [Strip(st.current)]
  {
  }

  /** At depth 0 the joined texts split back into the texts. */
  lemma {:induction false} SplitTop(items: seq<PyValue>, w: string, ps: seq<string>)
    requires AllPlain(items) && items != [] && IsBlank(w)
    ensures Finish(SplitFold(Scan(0, w, ps), JoinComma(TextsOf(items)))) == ps + TextsOf(items)
    decreases items
  {
    var ts := TextsOf(items);
    TextsOfCons(items);
    var t0 := TextOf(items[0]);
    var st := Scan(0, w, ps);
    ScanText(items[0], st);
    TextShape(items[0]);
    StripBlankPrefix(w, t0);
    var s1 := SplitFold(st, t0);
    assert s1 == Scan(0, w + t0, ps);
    if |items| == 1 {
      assert ts == [t0];
    } else {
      var rest := JoinComma(TextsOf(items[1..]));
      assert ts[1..] == TextsOf(items[1..]);
      assert JoinComma(ts) == t0 + (", " + rest);
      SplitFoldConcat(st, t0, ", " + rest);
      CommaSpace(s1);
      SplitFoldConcat(s1, ", ", rest);
      var s2 := SplitFold(s1, ", ");
      assert s2 == Scan(0, " ", ps + [t0]);
      assert SplitFold(st, JoinComma(ts)) == SplitFold(s2, rest);
      assert IsBlank(" ");
      SplitTop(items[1..], " ", ps + [t0]);
      var tail := TextsOf(items[1..]);
      assert Finish(SplitFold(s2, rest)) == ps + [t0] + tail;
      assert ts == [t0] + tail;
      ConcatAssoc(ps, [t0], tail);
    }
  }

  lemma {:induction false} DigitRunPrefix(d: string, rest: string)
    requires AllDigits(d) && rest != [] && !IsDigit(rest[0])
    ensures DigitRun(d + rest) == |d|
    decreases |d|
  {
    if d == [] {
      assert d + rest == rest;
    } else {
      assert (d + rest)[0] == d[0];
      assert (d + rest)[1..] == d[1..] + rest;
      DigitRunPrefix(d[1..], rest);
    }
  }

  /** Where the parts of "[n](j)" sit. */
  lemma ListTextParts(n: nat, ts: seq<string>)
    ensures var t := ListText(n, ts); var d := NatToDecimal(n); var k := 1 + |d|;
      && |t| == k + 3 + |JoinComma(ts)|
      && t[1..] == d + ("](" + JoinComma(ts) + ")")
      && t[k] == ']' && t[k + 1] == '(' && t[k + 2..] == JoinComma(ts) + [')']
  {
  }

  /** A one-line text closed by ')' is its own first line, and that ')' is its last. */
  lemma ClosedLine(j: string, c: char)
    requires '\n' !in j && c != '\n'
    ensures FirstLine(j + [c]) == j + [c] && LastIndexOf(j + [c], c) == Some(|j|)
  {
    IndexOfFacts(j + [c], '\n');
  }

  /** When '[', k - 1 digits, "](" and a one-line rest closed by ')' make up `t`, the pattern finds that rest. */
  lemma ArrayMatchAt(t: string, k: nat, j: string)
    requires t != [] && t[0] == '[' && k > 1 && k + 1 < |t| && DigitRun(t[1..]) == k - 1
    requires t[k] == ']' && t[k + 1] == '(' && t[k + 2..] == j + [')'] && '\n' !in j
    ensures ArrayMatch(t) == Some(j)
  {
    ClosedLine(j, ')');
    assert (j + [')'])[..|j|] == j;
  }

  /** The "[n](...)" pattern finds the joined elements of a list text on one line. */
  lemma ArrayMatchList(n: nat, ts: seq<string>)
    requires '\n' !in JoinComma(ts)
    ensures ArrayMatch(ListText(n, ts)) == Some(JoinComma(ts))
  {
    var d := NatToDecimal(n);
    var j := JoinComma(ts);
    ListTextParts(n, ts);
    DigitRunPrefix(d, "](" + j + ")");
    ArrayMatchAt(ListText(n, ts), 1 + |d|, j);
  }

  // ---------------------------------------------------------------------
  // Tokens

  /** A text that starts with none of what a number can start with is neither an int nor a float to Python. */
  lemma NotNumber(s: string)
    requires s != [] && !IsSpace(s[0]) && !IsSpace(s[|s| - 1])
    requires !IsDigit(s[0]) && s[0] != '-' && s[0] != '+' && s[0] != '.'
    requires !IsSpecialFloat(s)
    ensures ParseInt(s) == None && !IsFloatLiteral(s)
  {
    StripNoSpace(s);
    assert SignOf(s) == (1, s);
    forall i, j | 0 <= i <= j <= |s| ensures !IsMantissa(s[..i], s[i..j]) {
      if i == 0 {
        assert s[..i] == [];
        if s[i..j] != [] { assert s[i..j][0] == s[0]; }
      } else {
        assert s[..i][0] == s[0];
      }
    }
  }

  /** A token that is neither an int nor a float to Python is text, unquoted when quoted. */
  lemma TextToken(s: string)
    requires ParseInt(s) == None && !IsFloatLiteral(s)
    ensures ParseToken(s) == Unquote(s)
  {
  }

  /** Non-blank text that is not a bool and matches neither pattern is a token. */
  lemma TokenBranch(s: string)
    requires !IsBlank(s) && Lower(s) != "true" && Lower(s) != "false"
    requires ArrayMatch(Strip(s)).None?
    requires !(MatrixMatch(Strip(s)).Some? && '[' in MatrixMatch(Strip(s)).value && ']' in MatrixMatch(Strip(s)).value)
    ensures FromFreeFem(s) == ParseToken(s)
  {
  }

  /** Non-blank text that is not a bool and matches "[n](...)" is the list of its pieces. */
  lemma ListBranch(s: string)
    requires !IsBlank(s) && Lower(s) != "true" && Lower(s) != "false"
    requires ArrayMatch(Strip(s)).Some?
    ensures FromFreeFem(s) == PyList(ParseAll(SplitPieces(ArrayMatch(Strip(s)).value), |s|))
  {
  }

  /** Bracketed text holding brackets that does not match "[n](...)" is the list or array of its rows. */
  lemma MatrixBranch(s: string)
    requires !IsBlank(s) && Lower(s) != "true" && Lower(s) != "false"
    requires ArrayMatch(Strip(s)).None?
    requires MatrixMatch(Strip(s)).Some? && '[' in MatrixMatch(Strip(s)).value && ']' in MatrixMatch(Strip(s)).value
    ensures var rows := ParseAll(RowPieces(MatrixMatch(Strip(s)).value), |s|);
      FromFreeFem(s) == if AllLists(rows) then PyArrayOf(rows) else PyList(rows)
  {
  }

  /** A token is an int, a float or text, never None or a bool. */
  lemma TokenKinds(s: string)
    ensures ParseToken(s).PyInt? || ParseToken(s).PyFloat? || ParseToken(s).PyStr?
  {
  }

  /** Text that starts with something other than '[' or whitespace and is not a bool is a token. */
  lemma PlainToken(s: string)
    requires s != [] && !IsSpace(s[0]) && !IsSpace(s[|s| - 1]) && s[0] != '['
    requires Lower(s) != "true" && Lower(s) != "false"
    ensures FromFreeFem(s) == ParseToken(s)
  {
    StripNoSpace(s);
    assert !IsBlank(s);
    TokenBranch(s);
  }

  /** `int(str(n)) == n`, through the whole parser. */
  lemma IntRoundTrip(n: int)
    ensures FromFreeFem(IntToDecimal(n)) == PyInt(n)
  {
    var s := IntToDecimal(n);
    var m: nat := if n < 0 then -n else n;
    var d := NatToDecimal(m);
    assert s[|s| - 1] == d[|d| - 1];
    assert IsDigit(d[0]);
    assert Lower(s)[0] == s[0];
    assert '.' !in s && 'e' !in Lower(s) by {
      forall i | 0 <= i < |s| ensures s[i] != '.' && Lower(s)[i] != 'e' {
        if n < 0 && i > 0 { assert s[i] == d[i - 1]; } else if n >= 0 { assert s[i] == d[i]; }
      }
    }
    PlainToken(s);
    ParseIntOfDecimal(n);
  }

  /** Any string `x` comes back from its quoted text, whatever it holds. */
  lemma QuotedRoundTrip(x: string)
    ensures FromFreeFem("'" + x + "'") == PyStr(x)
  {
    var s := "'" + x + "'";
    assert Lower(s)[0] == '\'';
    PlainToken(s);
    NotNumber(s);
    TextToken(s);
    assert s[1..|s| - 1] == x;
  }

  /** Text is read as a bool exactly when it is "true" or "false" in any case. */
  lemma BoolToken(s: string, b: bool)
    ensures FromFreeFem(s) == PyBool(b) <==> Lower(s) == (if b then "true" else "false")
  {
    if Lower(s) == "true" || Lower(s) == "false" {
      assert AsciiLowerChar(s[0]) == Lower(s)[0];
      assert !IsSpace(s[0]);
      assert !IsBlank(s);
    } else if !IsBlank(s) {
      NotBlankOther(s);
    }
  }

  /** Non-blank text that is not "true" or "false" is read as neither None nor a bool. */
  lemma NotBlankOther(s: string)
    requires !IsBlank(s) && Lower(s) != "true" && Lower(s) != "false"
    ensures !FromFreeFem(s).PyNone? && !FromFreeFem(s).PyBool?
  {
    var t := Strip(s);
    if ArrayMatch(t).Some? {
      ListBranch(s);
    } else if MatrixMatch(t).Some? && '[' in MatrixMatch(t).value && ']' in MatrixMatch(t).value {
      MatrixBranch(s);
    } else {
      TokenBranch(s);
      TokenKinds(s);
    }
  }

  /** Text is read as None exactly when it is blank. */
  lemma NoneToken(s: string)
    ensures FromFreeFem(s) == PyNone <==> IsBlank(s)
  {
    if !IsBlank(s) {
      if Lower(s) != "true" && Lower(s) != "false" {
        NotBlankOther(s);
      } else {
        BoolToken(s, Lower(s) == "true");
      }
    }
  }

  /** `str(True)` and `str(False)` come back as the bools. */
  lemma BoolRoundTrip(b: bool)
    ensures FromFreeFem(TextOf(PyBool(b))) == PyBool(b)
  {
    var s := TextOf(PyBool(b));
    assert Lower(s) == (if b then "true" else "false");
    BoolToken(s, b);
  }

  /** None is written as "None", which comes back as that text, not as None. */
  lemma NoneComesBackAsText()
    ensures ToFreeFem(PyNone) == Ok("None")
    ensures FromFreeFem("None") == PyStr("None")
  {
    var s := "None";
    assert Lower(s) == "none";
    PlainToken(s);
    NotNumber(s);
    TextToken(s);
  }

  // ---------------------------------------------------------------------
  // The round trip

  /** `convert_from_freefem(convert_to_freefem(v)) == v` for ints, bools, safe strings and nested lists of them. */
  lemma {:induction false} RoundTrip(v: PyValue)
    requires Plain(v)
    ensures FromFreeFem(TextOf(v)) == v
    decreases v
  {
    match v {
      case PyInt(n) => IntRoundTrip(n);
      case PyBool(b) => BoolRoundTrip(b);
      case PyStr(x) => QuotedRoundTrip(x);
      case PyList(items) =>
        TextOfList(items);
        var s := TextOf(v);
        var ts := TextsOf(items);
        var j := JoinComma(ts);
        TextShape(v);
        assert s[0] == '[';
        assert !IsBlank(s);
        assert Lower(s)[0] == '[';
        StripNoSpace(s);
        forall i | 0 <= i < |ts| ensures '\n' !in ts[i] {
          TextsAt(items, i);
          TextShape(items[i]);
        }
        JoinCommaOneLine(ts);
        ArrayMatchList(|items|, ts);
        ListBranch(s);
        if items == [] {
          assert SplitPieces(j) == [];
        } else {
          SplitTop(items, [], []);
          assert SplitPieces(j) == ts;
        }
        RoundTripAll(items, |s|);
    }
  }

  lemma {:induction false} RoundTripAll(items: seq<PyValue>, bound: nat)
    requires AllPlain(items)
    requires forall i :: 0 <= i < |TextsOf(items)| ==> |TextsOf(items)[i]| < bound
    ensures ParseAll(TextsOf(items), bound) == items
    decreases items
  {
    if items != [] {
      TextsOfCons(items);
      var ts := TextsOf(items);
      assert ts[0] == TextOf(items[0]);
      RoundTrip(items[0]);
      assert ts[1..] == TextsOf(items[1..]);
      RoundTripAll(items[1..], bound);
    }
  }

  // ---------------------------------------------------------------------
  // Arrays

  /**
   * A one-dimensional array with no string elements is written exactly as the list
   * of its elements, so it comes back as a list.
   */
  lemma ArrayWrittenAsList(elems: seq<PyValue>)
    requires forall i :: 0 <= i < |elems| ==> IsScalar(elems[i]) && !elems[i].PyStr?
    ensures Renderable(PyArray([|elems|], elems)) && Renderable(PyList(elems))
    ensures ToFreeFem(PyArray([|elems|], elems)) == ToFreeFem(PyList(elems))
  {
    assert Product([|elems|]) == |elems| by { assert [|elems|][1..] == []; }
    var ts := ElemTexts(elems);
    ScalarTextsRender(elems);
  }

  lemma {:induction false} ScalarTextsRender(elems: seq<PyValue>)
    requires forall i :: 0 <= i < |elems| ==> IsScalar(elems[i]) && !elems[i].PyStr?
    ensures forall i :: 0 <= i < |elems| ==> Renderable(elems[i])
    ensures RenderAll(elems) == Ok(ElemTexts(elems))
    decreases |elems|
  {
    if elems != [] {
      ScalarTextsRender(elems[1..]);
      assert ElemTexts(elems) == [ScalarText(elems[0])] + ElemTexts(elems[1..]);
    }
  }

  /** A one-dimensional int array comes back as the list of its ints. */
  lemma IntArrayComesBackAsList(elems: seq<PyValue>)
    requires forall i :: 0 <= i < |elems| ==> elems[i].PyInt?
    ensures Renderable(PyArray([|elems|], elems))
    ensures FromFreeFem(ToFreeFem(PyArray([|elems|], elems)).value) == PyList(elems)
  {
    ArrayWrittenAsList(elems);
    assert Plain(PyList(elems));
    RoundTrip(PyList(elems));
  }

  /** The texts of the rows of a two-dimensional array. */
  function RowTexts(rows: nat, cols: nat, elems: seq<PyValue>): (ts: seq<string>)
    requires |elems| == rows * cols
    requires forall k :: 0 <= k < |elems| ==> IsScalar(elems[k])
    ensures |ts| == rows
  {
    seq(rows, i requires 0 <= i < rows => RowText(rows, cols, elems, i))
  }

  lemma {:induction false} JoinCommaSnoc(ts: seq<string>, t: string)
    requires ts != []
    ensures JoinComma(ts + [t]) == JoinComma(ts) + ", " + t
    decreases |ts|
  {
    assert (ts + [t])[0] == ts[0];
    assert (ts + [t])[1..] == ts[1..] + [t];
    if |ts| > 1 {
      JoinCommaSnoc(ts[1..], t);
    } else {
      assert ts[1..] + [t] == [t];
    }
  }

  /** The loop's text of a two-dimensional array is its rows joined by ", " inside brackets. */
  lemma MatrixTextIsJoin(rows: nat, cols: nat, elems: seq<PyValue>)
    requires |elems| == rows * cols
    requires forall k :: 0 <= k < |elems| ==> IsScalar(elems[k])
    ensures MatrixText(rows, cols, elems) == "[" + JoinComma(RowTexts(rows, cols, elems)) + "]"
  {
    MatrixPrefixJoin(rows, cols, elems, rows);
    assert RowTexts(rows, cols, elems)[..rows] == RowTexts(rows, cols, elems);
  }

  lemma {:induction false} MatrixPrefixJoin(rows: nat, cols: nat, elems: seq<PyValue>, i: nat)
    requires |elems| == rows * cols && i <= rows
    requires forall k :: 0 <= k < |elems| ==> IsScalar(elems[k])
    ensures MatrixPrefix(rows, cols, elems, i) == "[" + JoinComma(RowTexts(rows, cols, elems)[..i]) + (if 0 < i < rows then ", " else "")
    decreases i
  {
    var rt := RowTexts(rows, cols, elems);
    if i > 0 {
      MatrixPrefixJoin(rows, cols, elems, i - 1);
      assert rt[..i] == rt[..i - 1] + [rt[i - 1]];
      if i > 1 {
        JoinCommaSnoc(rt[..i - 1], rt[i - 1]);
      } else {
        assert rt[..i] == [rt[0]];
      }
    }
  }

  // ---------------------------------------------------------------------
  // Two-dimensional arrays do not come back

  lemma RowFoldOne(st: Scan, c: char)
    ensures RowFold(st, [c]) == RowStep(st, c)
  {
    assert [c][..0] == [];
  }

  lemma RowFoldSnoc(st: Scan, t: string, c: char)
    ensures RowFold(st, t + [c]) == RowStep(RowFold(st, t), c)
  {
    assert (t + [c])[..|t|] == t;
  }

  /** Below depth 0, text without square brackets only adds to the row in hand. */
  lemma {:induction false} RowQuietFold(st: Scan, t: string)
    requires st.level != 0
    requires forall i :: 0 <= i < |t| ==> t[i] != '[' && t[i] != ']'
    ensures RowFold(st, t) == Scan(st.level, st.current + t, st.pieces)
    decreases |t|
  {
    if t == [] {
      assert st.current + t == st.current;
    } else {
      var u := t[..|t| - 1];
      RowQuietFold(st, u);
      assert u + [t[|t| - 1]] == t;
      assert st.current + u + [t[|t| - 1]] == st.current + t;
    }
  }

  lemma RowStepKeeps(st: Scan, c: char)
    ensures |RowStep(st, c).pieces| >= |st.pieces| && RowStep(st, c).pieces[..|st.pieces|] == st.pieces
  {
    var r := RowStep(st, c);
    if r.pieces != st.pieces {
      assert r.pieces == st.pieces + [r.pieces[|r.pieces| - 1]];
    }
  }

  /** The row scan only ever appends rows. */
  lemma {:induction false} RowFoldKeeps(st: Scan, t: string)
    ensures |RowFold(st, t).pieces| >= |st.pieces| && RowFold(st, t).pieces[..|st.pieces|] == st.pieces
    decreases |t|
  {
    if t != [] {
      var u := t[..|t| - 1];
      RowFoldKeeps(st, u);
      var m := RowFold(st, u);
      RowStepKeeps(m, t[|t| - 1]);
      var r := RowStep(m, t[|t| - 1]);
      assert r.pieces[..|st.pieces|] == r.pieces[..|m.pieces|][..|st.pieces|];
    }
  }

  lemma RowOpen(st: Scan)
    requires st.level == 0 && st.current == []
    ensures RowStep(st, '[') == Scan(1, ['['], st.pieces)
  {
    assert Strip(st.current) == [];
  }

  lemma RowClose(st: Scan)
    requires st.level == 1
    ensures RowStep(st, ']') == Scan(0, [], st.pieces + [Strip(st.current + [']'])])
  {
  }

  /** "[" digits "]" at the start of the content is a row of its own. */
  lemma RowHead(d: string)
    requires AllDigits(d)
    ensures RowFold(Start, ['['] + d + [']']) == Scan(0, "", [['['] + d + [']']])
  {
    RowFoldOne(Start, '[');
    RowOpen(Start);
    var s1 := Scan(1, ['['], []);
    assert forall i :: 0 <= i < |d| ==> d[i] != '[' && d[i] != ']' by {
      forall i | 0 <= i < |d| ensures d[i] != '[' && d[i] != ']' { assert IsDigit(d[i]); }
    }
    RowQuietFold(s1, d);
    RowFoldConcat(Start, ['['], d);
    assert RowFold(Start, ['['] + d) == Scan(1, ['['] + d, []);
    RowFoldSnoc(Start, ['['] + d, ']');
    StripBracketed(d);
    RowClose(Scan(1, ['['] + d, []));
  }

  /** A bracketed row has no surrounding whitespace to strip. */
  lemma StripBracketed(d: string)
    ensures Strip(['['] + d + [']']) == ['['] + d + [']']
  {
    var row := ['['] + d + [']'];
    assert row[0] == '[' && row[|row| - 1] == ']';
    assert !IsSpace('[') && !IsSpace(']');
    StripNoSpace(row);
  }

  lemma FinishKeeps(st: Scan)
    ensures |Finish(st)| >= |st.pieces| && Finish(st)[..|st.pieces|] == st.pieces
  {
  }

  /** The first row piece of content that starts with "[" digits "]" is that text. */
  lemma FirstRowPiece(d: string, rest: string)
    requires AllDigits(d)
    ensures |RowPieces(['['] + d + [']'] + rest)| >= 1
    ensures RowPieces(['['] + d + [']'] + rest)[0] == ['['] + d + [']']
  {
    var head := ['['] + d + [']'];
    RowFoldConcat(Start, head, rest);
    RowHead(d);
    var mid := RowFold(Start, head);
    RowFoldKeeps(mid, rest);
    var st := RowFold(mid, rest);
    assert st.pieces[..1] == [head];
    FinishKeeps(st);
    var ps := Finish(st);
    assert ps[..|st.pieces|][..1] == ps[..1];
    assert ps[0] == ps[..1][0];
  }

  lemma JoinCommaHead(ts: seq<string>)
    requires ts != []
    ensures |JoinComma(ts)| >= |ts[0]| && JoinComma(ts)[..|ts[0]|] == ts[0]
  {
  }

  lemma DigitsFacts(d: string)
    requires AllDigits(d)
    ensures '\n' !in d && '[' !in d && ']' !in d && '.' !in d && 'e' !in Lower(d)
  {
    forall i | 0 <= i < |d| ensures d[i] != '\n' && d[i] != '[' && d[i] != ']' && d[i] != '.' && Lower(d)[i] != 'e' {
      assert IsDigit(d[i]);
    }
  }

  /** "[" digits "]" does not match "[n](...)": nothing follows the ']'. */
  lemma BracketNotList(d: string)
    requires AllDigits(d)
    ensures ArrayMatch(['['] + d + [']']).None?
  {
    var s := ['['] + d + [']'];
    assert s[1..] == d + [']'];
    DigitRunPrefix(d, [']']);
  }

  /** "[" digits "]" is a token that is not a number, so it is that text. */
  lemma BracketToken(d: string)
    requires AllDigits(d)
    ensures ParseToken(['['] + d + [']']) == PyStr(['['] + d + [']'])
  {
    var s := ['['] + d + [']'];
    DigitsFacts(d);
    assert '.' !in s by {
      forall i | 0 <= i < |s| ensures s[i] != '.' {
        if 0 < i < |s| - 1 { assert s[i] == d[i - 1]; }
      }
    }
    assert 'e' !in Lower(s) by {
      forall i | 0 <= i < |s| ensures Lower(s)[i] != 'e' {
        if 0 < i < |s| - 1 { assert s[i] == d[i - 1]; assert Lower(d)[i - 1] == AsciiLowerChar(d[i - 1]); }
      }
    }
    StripNoSpace(s);
    assert SignOf(s) == (1, s);
  }

  /** "[" digits "]" is read as that text. */
  lemma BracketedDigits(d: string)
    requires AllDigits(d)
    ensures FromFreeFem(['['] + d + [']']) == PyStr(['['] + d + [']'])
  {
    var s := ['['] + (d + [']']);
    ConcatAssoc(['['], d, [']']);
    assert Lower(s)[0] == '[';
    StripNoSpace(s);
    assert !IsBlank(s);
    BracketNotList(d);
    DigitsFacts(d);
    MatrixMatchAt(s, d);
    TokenBranch(s);
    BracketToken(d);
  }

  /** The matrix pattern finds a one-line content between the outer brackets. */
  lemma MatrixMatchAt(t: string, c: string)
    requires t == ['['] + (c + [']']) && '\n' !in c
    ensures MatrixMatch(t) == Some(c)
  {
    assert t[1..] == c + [']'];
    ClosedLine(c, ']');
    assert (c + [']'])[..|c|] == c;
  }

  /** The rows of a two-dimensional array, joined, start with "[cols]" and stay on one line. */
  lemma MatrixContent(rows: nat, cols: nat, elems: seq<PyValue>)
    requires rows >= 1 && |elems| == rows * cols
    requires forall k :: 0 <= k < |elems| ==> IsScalar(elems[k]) && '\n' !in ScalarText(elems[k])
    ensures var c := JoinComma(RowTexts(rows, cols, elems)); var head := ['['] + NatToDecimal(cols) + [']'];
      && c == head + c[|head|..] && '\n' !in c
  {
    MatrixHead(rows, cols, elems);
    var rts := RowTexts(rows, cols, elems);
    forall i | 0 <= i < |rts| ensures '\n' !in rts[i] {
      RowOneLine(rows, cols, elems, i);
    }
    JoinCommaOneLine(rts);
  }

  /** The joined rows start with the first row, which starts with "[cols]". */
  lemma MatrixHead(rows: nat, cols: nat, elems: seq<PyValue>)
    requires rows >= 1 && |elems| == rows * cols
    requires forall k :: 0 <= k < |elems| ==> IsScalar(elems[k])
    ensures var c := JoinComma(RowTexts(rows, cols, elems)); var head := ['['] + NatToDecimal(cols) + [']'];
      c == head + c[|head|..]
  {
    var rts := RowTexts(rows, cols, elems);
    var c := JoinComma(rts);
    var head := ['['] + NatToDecimal(cols) + [']'];
    RowBounds(rows, cols, 0);
    var e0 := ElemTexts(elems[0..cols]);
    assert rts[0] == ListText(cols, e0);
    ListTextParts(cols, e0);
    JoinCommaHead(rts);
    assert rts[0][..|head|] == head;
    assert c[..|head|] == rts[0][..|head|];
  }

  /** A row of one-line elements is on one line. */
  lemma RowOneLine(rows: nat, cols: nat, elems: seq<PyValue>, i: nat)
    requires i < rows && |elems| == rows * cols
    requires forall k :: 0 <= k < |elems| ==> IsScalar(elems[k]) && '\n' !in ScalarText(elems[k])
    ensures '\n' !in RowText(rows, cols, elems, i)
  {
    RowBounds(rows, cols, i);
    var es := elems[i * cols..(i + 1) * cols];
    forall k | 0 <= k < |ElemTexts(es)| ensures '\n' !in ElemTexts(es)[k] {
      assert es[k] == elems[i * cols + k];
    }
    JoinCommaOneLine(ElemTexts(es));
    ListTextOneLine(cols, ElemTexts(es));
  }

  /** Bracketed one-line content starting with '[' and holding ']' goes to the row scan. */
  lemma MatrixTextBranch(text: string, c: string, j: nat)
    requires text == ['['] + (c + [']']) && c != [] && c[0] == '[' && j < |c| && c[j] == ']' && '\n' !in c
    ensures var rows := ParseAll(RowPieces(c), |text|);
      FromFreeFem(text) == if AllLists(rows) then PyArrayOf(rows) else PyList(rows)
  {
    BracketedText(text, c);
    MatrixMatchAt(text, c);
    assert '[' in c && ']' in c;
    MatrixBranch(text);
  }

  /** Text opening with "[[" is neither blank nor a bool, is already stripped and is no 1-D array. */
  lemma BracketedText(text: string, c: string)
    requires text == ['['] + (c + [']']) && c != [] && c[0] == '['
    ensures !IsBlank(text) && Lower(text) != "true" && Lower(text) != "false"
    ensures Strip(text) == text && ArrayMatch(text).None?
  {
    assert text[1] == '[';
    assert !IsBlank(text) && Lower(text)[0] == '[';
    StripNoSpace(text);
  }

  /**
   * The text of a two-dimensional array with at least one row does not parse back
   * as an array: its first row piece is "[cols]", read as text, so the rows are not
   * all lists and the result is a plain list starting with that text.
   */
  lemma MatrixComesBackAsList(rows: nat, cols: nat, elems: seq<PyValue>)
    requires rows >= 1 && |elems| == rows * cols
    requires forall k :: 0 <= k < |elems| ==> IsScalar(elems[k]) && '\n' !in ScalarText(elems[k])
    ensures var r := FromFreeFem(MatrixText(rows, cols, elems));
      r.PyList? && |r.items| >= 1 && r.items[0] == PyStr("[" + NatToDecimal(cols) + "]")
  {
    var text := MatrixText(rows, cols, elems);
    var c := JoinComma(RowTexts(rows, cols, elems));
    var d := NatToDecimal(cols);
    var head := ['['] + d + [']'];
    MatrixTextIsJoin(rows, cols, elems);
    MatrixContent(rows, cols, elems);
    var rest := c[|head|..];
    assert c == head + rest;
    assert text == ['['] + (c + [']']);
    assert c[0] == '[' && c[|d| + 1] == ']';
    MatrixTextBranch(text, c, |d| + 1);
    FirstRowPiece(d, rest);
    BracketedDigits(d);
    var parsed := ParseAll(RowPieces(c), |text|);
    assert parsed[0] == PyStr(head);
    assert head == "[" + d + "]";
  }
}
