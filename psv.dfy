/** The pipe-separated configuration files of the CDN (`PipeSeparatedVars`,
    `load_pipe_separated_vars`, `pick_cdn` in main.rs). Fields are kept as
    ranges into the backing text; positions are character indices. */
module PipeSeparated {
  import opened Common

  /** A half-open range `start..end` of the backing text. */
  datatype Range = Range(start: nat, end: nat)

  /** `PipeSeparatedVars`: the backing text, the heading fields, the fields
      of every entry line, and the other lines, each followed by a newline. */
  datatype Vars = Vars(storage: string, headings: seq<Range>, entries: seq<seq<Range>>, meta: string)

  function Text(s: string, r: Range): string
    requires r.start <= r.end <= |s|
  {
    s[r.start..r.end]
  }

  /** `char::is_whitespace`: the Unicode White_Space property. */
  predicate IsWhiteSpace(c: char)
  {
    var n := c as int;
    (0x09 <= n <= 0x0D) || n == 0x20 || n == 0x85 || n == 0xA0 || n == 0x1680
    || (0x2000 <= n <= 0x200A) || n == 0x2028 || n == 0x2029 || n == 0x202F || n == 0x205F || n == 0x3000
  }

  // ---------------------------------------------------------------- lines

  /** The first position at or after `at` holding `c`, or `end`. */
  function NextOf(s: string, c: char, at: nat, end: nat): (e: nat)
    requires at <= end <= |s|
    ensures at <= e <= end && (e < end ==> s[e] == c)
    decreases end - at
  {
    if at == end || s[at] == c then at else NextOf(s, c, at + 1, end)
  }

  /** No position of `a..b` holds `c`. */
  predicate Clear(s: string, c: char, a: nat, b: nat)
    requires a <= b <= |s|
  {
    forall k :: a <= k < b ==> s[k] != c
  }

  lemma ClearNotIn(s: string, c: char, a: nat, b: nat)
    requires a <= b <= |s| && Clear(s, c, a, b)
    ensures c !in s[a..b]
  {
    assert forall j :: 0 <= j < b - a ==> s[a..b][j] == s[a + j];
  }

  /** No `c` lies between `at` and any position up to the one NextOf finds. */
  lemma {:induction false} NextOfClear(s: string, c: char, at: nat, end: nat, k: nat)
    requires at <= k && at <= end <= |s| && k <= NextOf(s, c, at, end)
    ensures Clear(s, c, at, k)
    decreases end - at
  {
    if k > at {
      NextOfClear(s, c, at + 1, end, k);
    }
  }

  /** The lines of `str::lines` from `at` on: each ends before its newline,
      and before a carriage return in front of that newline; a last line
      with no newline keeps a carriage return it ends with. */
  function LinesFrom(s: string, at: nat): seq<Range>
    requires at <= |s|
    decreases |s| - at
  {
    if at == |s| then []
    else
      var e := NextOf(s, '\n', at, |s|);
      if e == |s| then [Range(at, e)]
      else
        var end := if e > at && s[e - 1] == '\r' then e - 1 else e;
        [Range(at, end)] + LinesFrom(s, e + 1)
  }

  /** The ranges lie within the text and hold no line break. */
  predicate LinesIn(s: string, ls: seq<Range>)
  {
    forall i :: 0 <= i < |ls| ==> ls[i].start <= ls[i].end <= |s| && Clear(s, '\n', ls[i].start, ls[i].end)
  }

  /** What follows the first line lies inside the text and holds no line break. */
  lemma LinesInRest(s: string, ls: seq<Range>)
    requires LinesIn(s, ls) && |ls| > 0
    ensures LinesIn(s, ls[1..]) && RangesWithin(s, ls[1..])
  {
    assert forall i :: 0 <= i < |ls| - 1 ==> ls[1..][i] == ls[i + 1];
  }

  /** Every line lies inside the text and holds no newline. */
  lemma {:induction false} LinesFromClear(s: string, at: nat)
    requires at <= |s|
    ensures LinesIn(s, LinesFrom(s, at))
    decreases |s| - at
  {
    if at < |s| {
      var e := NextOf(s, '\n', at, |s|);
      var end := if e < |s| && e > at && s[e - 1] == '\r' then e - 1 else e;
      NextOfClear(s, '\n', at, |s|, end);
      if e < |s| {
        LinesFromClear(s, e + 1);
        var rest := LinesFrom(s, e + 1);
        assert LinesFrom(s, at) == [Range(at, end)] + rest;
        assert forall i :: 0 < i < |rest| + 1 ==> ([Range(at, end)] + rest)[i] == rest[i - 1];
      }
    }
  }

  /** Splitting at the first separator: the piece before it, then the rest. */
  lemma {:induction false} SplitAtFirst<T>(t: seq<T>, sep: T, e: nat)
    requires e < |t| && t[e] == sep && sep !in t[..e]
    ensures Split(t, sep) == [t[..e]] + Split(t[e + 1..], sep)
    decreases e
  {
    if e > 0 {
      assert t[0] == t[..e][0];
      assert sep !in t[1..][..e - 1] by {
        assert t[1..][..e - 1] == t[..e][1..];
      }
      SplitAtFirst(t[1..], sep, e - 1);
      assert t[1..][e..] == t[e + 1..];
      assert [t[0]] + t[1..][..e - 1] == t[..e];
    }
  }

  /** With no separator, the whole is the only piece. */
  lemma {:induction false} SplitNone<T>(t: seq<T>, sep: T)
    requires sep !in t
    ensures Split(t, sep) == [t]
    decreases |t|
  {
    if |t| > 0 {
      assert sep !in t[1..] by {
        forall i | 0 <= i < |t| - 1 ensures t[1..][i] != sep { assert t[1..][i] == t[i + 1]; }
      }
      SplitNone(t[1..], sep);
      assert [t[0]] + t[1..] == t;
    }
  }

  /** Splitting a range at the first separator in it. */
  lemma SplitRangeAt(s: string, c: char, a: nat, e: nat, b: nat)
    requires a <= e < b <= |s| && s[e] == c && Clear(s, c, a, e)
    ensures Split(s[a..b], c) == [s[a..e]] + Split(s[e + 1..b], c)
  {
    ClearNotIn(s, c, a, e);
    var t := s[a..b];
    assert t[..e - a] == s[a..e];
    SplitAtFirst(t, c, e - a);
    assert t[e - a + 1..] == s[e + 1..b];
  }

  predicate RangesWithin(s: string, rs: seq<Range>)
  {
    forall i :: 0 <= i < |rs| ==> rs[i].start <= rs[i].end <= |s|
  }

  /** The text of each range. */
  function Texts(s: string, rs: seq<Range>): (r: seq<string>)
    ensures |r| == |rs|
  {
    seq(|rs|, i requires 0 <= i < |rs| => if rs[i].start <= rs[i].end <= |s| then Text(s, rs[i]) else [])
  }

  lemma TextsCons(s: string, r: Range, rs: seq<Range>)
    requires r.start <= r.end <= |s|
    ensures Texts(s, [r] + rs) == [Text(s, r)] + Texts(s, rs)
  {
    assert forall i :: 1 <= i <= |rs| ==> ([r] + rs)[i] == rs[i - 1];
  }

  lemma TextsOne(s: string, r: Range)
    requires r.start <= r.end <= |s|
    ensures Texts(s, [r]) == [Text(s, r)]
  {
  }

  /** One line that ends at a newline with no carriage return before it. */
  lemma LineStep(s: string, at: nat, e: nat)
    requires at <= e < |s| && e == NextOf(s, '\n', at, |s|)
    requires e > at ==> s[e - 1] != '\r'
    ensures LinesFrom(s, at) == [Range(at, e)] + LinesFrom(s, e + 1)
  {
  }

  /** In a text that does not end in a newline, the line after a newline
      starts inside the text, and has no carriage returns when the whole has
      none. */
  lemma NextLine(s: string, at: nat)
    requires at < |s| && s[|s| - 1] != '\n' && Clear(s, '\r', at, |s|)
    requires NextOf(s, '\n', at, |s|) < |s|
    ensures var e := NextOf(s, '\n', at, |s|);
            e + 1 < |s| && Clear(s, '\r', e + 1, |s|) && (e > at ==> s[e - 1] != '\r')
  {
  }

  /** Without carriage returns, and unless the text ends in a newline, the
      lines are the pieces between newlines. */
  lemma {:induction false} LinesArePieces(s: string, at: nat)
    requires at < |s| && s[|s| - 1] != '\n'
    requires Clear(s, '\r', at, |s|)
    ensures LinesFrom(s, at) == PiecesFrom(s, '\n', at, |s|)
    decreases |s| - at
  {
    var e := NextOf(s, '\n', at, |s|);
    if e < |s| {
      NextLine(s, at);
      LinesArePieces(s, e + 1);
      LineStep(s, at, e);
      PieceStep(s, '\n', at, e, |s|);
    }
  }

  /** Without carriage returns, and unless the text ends in a newline, the
      lines are exactly `split('\n')` of the text. */
  lemma LinesAreSplit(s: string, at: nat)
    requires at < |s| && s[|s| - 1] != '\n'
    requires Clear(s, '\r', at, |s|)
    ensures Texts(s, LinesFrom(s, at)) == Split(s[at..], '\n')
  {
    LinesArePieces(s, at);
    PiecesAreSplit(s, '\n', at, |s|);
    assert s[at..|s|] == s[at..];
  }

  // ---------------------------------------------------------------- fields

  /** The pieces of `split(c)` of the range `at..end`. */
  function PiecesFrom(s: string, c: char, at: nat, end: nat): (r: seq<Range>)
    requires at <= end <= |s|
    ensures |r| >= 1
    ensures forall i :: 0 <= i < |r| ==> at <= r[i].start <= r[i].end <= end
    decreases end - at
  {
    var bar := NextOf(s, c, at, end);
    if bar == end then [Range(at, end)] else [Range(at, bar)] + PiecesFrom(s, c, bar + 1, end)
  }

  /** One piece of a range: up to the first separator, then the pieces after it. */
  lemma PieceStep(s: string, c: char, at: nat, bar: nat, end: nat)
    requires at <= bar < end <= |s| && bar == NextOf(s, c, at, end)
    ensures PiecesFrom(s, c, at, end) == [Range(at, bar)] + PiecesFrom(s, c, bar + 1, end)
  {
  }

  /** The last piece of a range, with no separator in it. */
  lemma LastPiece(s: string, c: char, at: nat, end: nat)
    requires at <= end <= |s| && NextOf(s, c, at, end) == end
    ensures Texts(s, PiecesFrom(s, c, at, end)) == Split(s[at..end], c)
  {
    assert PiecesFrom(s, c, at, end) == [Range(at, end)];
    NextOfClear(s, c, at, end, end);
    ClearNotIn(s, c, at, end);
    SplitNone(s[at..end], c);
    TextsOne(s, Range(at, end));
  }

  /** The step of PiecesAreSplit: one more piece in front. */
  lemma PiecesSplitStep(s: string, c: char, at: nat, bar: nat, end: nat)
    requires at <= bar < end <= |s| && bar == NextOf(s, c, at, end)
    requires Texts(s, PiecesFrom(s, c, bar + 1, end)) == Split(s[bar + 1..end], c)
    ensures Texts(s, PiecesFrom(s, c, at, end)) == Split(s[at..end], c)
  {
    PieceStep(s, c, at, bar, end);
    NextOfClear(s, c, at, end, bar);
    SplitRangeAt(s, c, at, bar, end);
    var rest := PiecesFrom(s, c, bar + 1, end);
    TextsCons(s, Range(at, bar), rest);
    calc {
      Texts(s, PiecesFrom(s, c, at, end));
      Texts(s, [Range(at, bar)] + rest);
      [s[at..bar]] + Texts(s, rest);
      [s[at..bar]] + Split(s[bar + 1..end], c);
      Split(s[at..end], c);
    }
  }

  /** The pieces are Rust's `split(c)` of the range. */
  lemma {:induction false} PiecesAreSplit(s: string, c: char, at: nat, end: nat)
    requires at <= end <= |s|
    ensures Texts(s, PiecesFrom(s, c, at, end)) == Split(s[at..end], c)
    decreases end - at
  {
    var bar := NextOf(s, c, at, end);
    if bar == end {
      LastPiece(s, c, at, end);
    } else {
      PiecesAreSplit(s, c, bar + 1, end);
      PiecesSplitStep(s, c, at, bar, end);
    }
  }

  /** The first position of `a..b` that is not white space, or `b`. */
  function TrimStart(s: string, a: nat, b: nat): (i: nat)
    requires a <= b <= |s|
    ensures a <= i <= b && (i < b ==> !IsWhiteSpace(s[i]))
    decreases b - a
  {
    if a == b || !IsWhiteSpace(s[a]) then a else TrimStart(s, a + 1, b)
  }

  /** Everything TrimStart skips is white space. */
  lemma {:induction false} TrimStartSkips(s: string, a: nat, b: nat, k: nat)
    requires a <= b <= |s| && a <= k < TrimStart(s, a, b)
    ensures IsWhiteSpace(s[k])
    decreases b - a
  {
    if k > a {
      TrimStartSkips(s, a + 1, b, k);
    }
  }

  /** The position after the last character of `a..b` that is not white
      space, or `a`. */
  function TrimEnd(s: string, a: nat, b: nat): (j: nat)
    requires a <= b <= |s|
    ensures a <= j <= b && (j > a ==> !IsWhiteSpace(s[j - 1]))
    ensures a < b && !IsWhiteSpace(s[a]) ==> j > a
    decreases b - a
  {
    if a == b || !IsWhiteSpace(s[b - 1]) then b else TrimEnd(s, a, b - 1)
  }

  /** Everything TrimEnd drops is white space. */
  lemma {:induction false} TrimEndSkips(s: string, a: nat, b: nat, k: nat)
    requires a <= b <= |s| && TrimEnd(s, a, b) <= k < b
    ensures IsWhiteSpace(s[k])
    decreases b - a
  {
    if k < b - 1 {
      TrimEndSkips(s, a, b - 1, k);
    }
  }

  /** `str::trim` of a piece, as a range: the piece without leading and
      trailing white space; a piece of white space only becomes the empty
      range at its start. */
  function Trim(s: string, p: Range): (t: Range)
    requires p.start <= p.end <= |s|
    ensures p.start <= t.start <= t.end <= p.end
    ensures t.start < t.end ==> !IsWhiteSpace(s[t.start]) && !IsWhiteSpace(s[t.end - 1])
    ensures t.start == t.end ==> t.start == p.start
  {
    var i := TrimStart(s, p.start, p.end);
    if i == p.end then Range(p.start, p.start) else Range(i, TrimEnd(s, i, p.end))
  }

  /** Trimming drops only white space, at either end; a piece of white space
      only is dropped whole. */
  lemma TrimDropsWhiteSpace(s: string, p: Range, k: nat)
    requires p.start <= k < p.end <= |s|
    requires k < Trim(s, p).start || Trim(s, p).end <= k
    ensures IsWhiteSpace(s[k])
  {
    var i := TrimStart(s, p.start, p.end);
    if i == p.end || k < i {
      TrimStartSkips(s, p.start, p.end, k);
    } else {
      TrimEndSkips(s, i, p.end, k);
    }
  }

  /** A field as `load_pipe_separated_vars` keeps it: inside the text, ending
      before its last character, free of separators and line breaks, with no
      white space at either end. */
  predicate IsField(s: string, r: Range)
  {
    r.start <= r.end < |s|
    && (forall k :: r.start <= k < r.end ==> s[k] != '|' && s[k] != '\n')
    && (r.start < r.end ==> !IsWhiteSpace(s[r.start]) && !IsWhiteSpace(s[r.end - 1]))
  }

  /** `trimmed_index`: the trimmed piece, whose start and end must both lie
      before the end of the text or the `assert!` panics. */
  function TrimmedIndex(s: string, p: Range): (r: Result<Range>)
    requires p.start <= p.end <= |s|
    ensures r.Ok? ==> r.value == Trim(s, p) && r.value.end < |s|
    ensures r.Err? <==> Trim(s, p).end >= |s|
  {
    var t := Trim(s, p);
    if t.start < |s| && t.end < |s| then Ok(t) else Err(Panic)
  }

  /** The pieces' ranges lie within the text and hold no separator or line
      break. */
  predicate PiecesIn(s: string, ps: seq<Range>)
  {
    forall i :: 0 <= i < |ps| ==>
      (ps[i].start <= ps[i].end <= |s| && forall k :: ps[i].start <= k < ps[i].end ==> s[k] != '|' && s[k] != '\n')
  }

  /** `map(trimmed_index).collect()`: every piece trimmed, or a panic. */
  function TrimAll(s: string, ps: seq<Range>): (r: Result<seq<Range>>)
    requires RangesWithin(s, ps)
    ensures r.Ok? ==> |r.value| == |ps|
    ensures r.Err? ==> r.error == Panic
  {
    if |ps| == 0 then Ok([])
    else
      match TrimmedIndex(s, ps[0])
      case Err(e) => Err(e)
      case Ok(t) =>
        match TrimAll(s, ps[1..])
        case Err(e) => Err(e)
        case Ok(ts) => Ok([t] + ts)
  }

  /** Every trimmed piece is a field: the trimmed range of its piece. */
  lemma {:induction false} TrimAllFields(s: string, ps: seq<Range>)
    requires PiecesIn(s, ps) && TrimAll(s, ps).Ok?
    ensures var ts := TrimAll(s, ps).value;
            forall i :: 0 <= i < |ps| ==> IsField(s, ts[i]) && ts[i] == Trim(s, ps[i])
  {
    if |ps| > 0 {
      assert PiecesIn(s, ps[1..]) by {
        forall i | 0 <= i < |ps| - 1 ensures ps[1..][i] == ps[i + 1] { }
      }
      TrimAllFields(s, ps[1..]);
      var ts := TrimAll(s, ps).value;
      assert ts == [TrimmedIndex(s, ps[0]).value] + TrimAll(s, ps[1..]).value;
      assert IsField(s, ts[0]);
      forall i | 0 < i < |ps|
        ensures IsField(s, ts[i]) && ts[i] == Trim(s, ps[i])
      {
        assert ts[i] == TrimAll(s, ps[1..]).value[i - 1] && ps[1..][i - 1] == ps[i];
      }
    }
  }

  /** The pieces of a range free of line breaks hold no separator and no
      line break. */
  lemma {:induction false} PiecesInRange(s: string, at: nat, end: nat)
    requires at <= end <= |s| && Clear(s, '\n', at, end)
    ensures PiecesIn(s, PiecesFrom(s, '|', at, end))
    decreases end - at
  {
    var bar := NextOf(s, '|', at, end);
    NextOfClear(s, '|', at, end, bar);
    if bar < end {
      PiecesInRange(s, bar + 1, end);
      var rest := PiecesFrom(s, '|', bar + 1, end);
      assert PiecesFrom(s, '|', at, end) == [Range(at, bar)] + rest;
      assert forall i :: 0 < i < |rest| + 1 ==> ([Range(at, bar)] + rest)[i] == rest[i - 1];
    }
  }

  /** The fields of a line: its `split('|')` pieces, trimmed. */
  function FieldsOf(s: string, line: Range): (r: Result<seq<Range>>)
    requires line.start <= line.end <= |s|
    ensures r.Ok? ==> |r.value| == |PiecesFrom(s, '|', line.start, line.end)| >= 1
    ensures r.Err? ==> r.error == Panic
  {
    TrimAll(s, PiecesFrom(s, '|', line.start, line.end))
  }

  /** The fields of a line are fields of the text. */
  lemma FieldsOfFields(s: string, line: Range)
    requires line.start <= line.end <= |s| && Clear(s, '\n', line.start, line.end)
    requires FieldsOf(s, line).Ok?
    ensures forall i :: 0 <= i < |FieldsOf(s, line).value| ==> IsField(s, FieldsOf(s, line).value[i])
  {
    PiecesInRange(s, line.start, line.end);
    TrimAllFields(s, PiecesFrom(s, '|', line.start, line.end));
  }

  // ---------------------------------------------------------------- loading

  /** `line.starts_with("##")`. */
  predicate IsComment(s: string, line: Range)
    requires line.start <= line.end <= |s|
  {
    line.end - line.start >= 2 && s[line.start] == '#' && s[line.start + 1] == '#'
  }

  /** The loop over the lines after the header: a line whose field count
      differs from the headings', or that starts with `##`, is appended to
      `meta` with a newline; any other becomes an entry. */
  function Route(s: string, ls: seq<Range>, n: nat, entries: seq<seq<Range>>, meta: string)
    : (r: Result<(seq<seq<Range>>, string)>)
    requires RangesWithin(s, ls)
    decreases |ls|
  {
    if |ls| == 0 then Ok((entries, meta))
    else
      match FieldsOf(s, ls[0])
      case Err(e) => Err(e)
      case Ok(parts) =>
        if |parts| != n || IsComment(s, ls[0]) then Route(s, ls[1..], n, entries, meta + Text(s, ls[0]) + "\n")
        else Route(s, ls[1..], n, entries + [parts], meta)
  }

  /** `load_pipe_separated_vars`: the reference definition. The first line
      gives the headings; an empty text has no first line and panics. */
  function Load(backing: string): (r: Result<Vars>)
    ensures r.Ok? ==> r.value.storage == backing
  {
    var lines := LinesFrom(backing, 0);
    LinesFromClear(backing, 0);
    if |lines| == 0 then Err(Panic)
    else
      LinesInRest(backing, lines);
      match FieldsOf(backing, lines[0])
      case Err(e) => Err(e)
      case Ok(headings) =>
        match Route(backing, lines[1..], |headings|, [], [])
        case Err(e) => Err(e)
        case Ok(res) => Ok(Vars(backing, headings, res.0, res.1))
  }

  /** The number of newlines in a text. */
  function Newlines(s: string): nat
  {
    if |s| == 0 then 0 else (if s[|s| - 1] == '\n' then 1 else 0) + Newlines(s[..|s| - 1])
  }

  lemma {:induction false} NewlinesAppend(a: string, b: string)
    ensures Newlines(a + b) == Newlines(a) + Newlines(b)
    decreases |b|
  {
    if |b| == 0 {
      assert a + b == a;
    } else {
      assert (a + b)[..|a + b| - 1] == a + b[..|b| - 1];
      NewlinesAppend(a, b[..|b| - 1]);
    }
  }

  lemma {:induction false} NoNewlines(t: string)
    requires '\n' !in t
    ensures Newlines(t) == 0
    decreases |t|
  {
    if |t| > 0 {
      var init := t[..|t| - 1];
      assert '\n' !in init by {
        forall i | 0 <= i < |init| ensures init[i] != '\n' { assert init[i] == t[i]; }
      }
      NoNewlines(init);
    }
  }

  predicate AllFields(s: string, es: seq<seq<Range>>, n: nat)
  {
    forall i :: 0 <= i < |es| ==> |es[i]| == n && forall j :: 0 <= j < n ==> IsField(s, es[i][j])
  }

  /** A line that becomes an entry: its pieces trim, there is one per
      heading, and it does not start with `##`. */
  predicate IsEntryLine(s: string, line: Range, n: nat)
    requires line.start <= line.end <= |s|
  {
    FieldsOf(s, line).Ok? && |FieldsOf(s, line).value| == n && !IsComment(s, line)
  }

  /** The fields of the entry lines of `ls`, in line order. */
  function EntryLines(s: string, ls: seq<Range>, n: nat): seq<seq<Range>>
    requires RangesWithin(s, ls)
    decreases |ls|
  {
    if |ls| == 0 then []
    else
      RangesWithinTail(s, ls);
      (if IsEntryLine(s, ls[0], n) then [FieldsOf(s, ls[0]).value] else []) + EntryLines(s, ls[1..], n)
  }

  /** The other lines of `ls`, in line order, each followed by a newline. */
  function MetaLines(s: string, ls: seq<Range>, n: nat): string
    requires RangesWithin(s, ls)
    decreases |ls|
  {
    if |ls| == 0 then []
    else
      RangesWithinTail(s, ls);
      (if IsEntryLine(s, ls[0], n) then [] else Text(s, ls[0]) + "\n") + MetaLines(s, ls[1..], n)
  }

  lemma RangesWithinTail(s: string, ls: seq<Range>)
    requires RangesWithin(s, ls) && |ls| > 0
    ensures RangesWithin(s, ls[1..])
  {
    assert forall i :: 0 <= i < |ls| - 1 ==> ls[1..][i] == ls[i + 1];
  }

  /** Some line of `ls` has a piece the trim refuses. */
  predicate SomeLinePanics(s: string, ls: seq<Range>)
    requires RangesWithin(s, ls)
  {
    exists i :: 0 <= i < |ls| && FieldsOf(s, ls[i]).Err?
  }

  /** The loop fails, with a panic, exactly when some line's fields do. */
  lemma {:induction false} RouteFails(s: string, ls: seq<Range>, n: nat, entries: seq<seq<Range>>, meta: string)
    requires RangesWithin(s, ls)
    ensures Route(s, ls, n, entries, meta).Err? <==> SomeLinePanics(s, ls)
    ensures Route(s, ls, n, entries, meta).Err? ==> Route(s, ls, n, entries, meta).error == Panic
    decreases |ls|
  {
    if |ls| > 0 && FieldsOf(s, ls[0]).Ok? {
      RangesWithinTail(s, ls);
      var tail := ls[1..];
      var parts := FieldsOf(s, ls[0]).value;
      if |parts| != n || IsComment(s, ls[0]) {
        RouteFails(s, tail, n, entries, meta + Text(s, ls[0]) + "\n");
      } else {
        RouteFails(s, tail, n, entries + [parts], meta);
      }
      PanicsTail(s, ls);
    }
  }

  /** With a first line whose fields trim, the lines panic when the later ones do. */
  lemma PanicsTail(s: string, ls: seq<Range>)
    requires RangesWithin(s, ls) && |ls| > 0 && FieldsOf(s, ls[0]).Ok?
    ensures RangesWithin(s, ls[1..]) && (SomeLinePanics(s, ls) <==> SomeLinePanics(s, ls[1..]))
  {
    RangesWithinTail(s, ls);
    if SomeLinePanics(s, ls) {
      var i :| 0 <= i < |ls| && FieldsOf(s, ls[i]).Err?;
      assert ls[1..][i - 1] == ls[i];
    }
    if SomeLinePanics(s, ls[1..]) {
      var i :| 0 <= i < |ls[1..]| && FieldsOf(s, ls[1..][i]).Err?;
      assert ls[1..][i] == ls[i + 1];
    }
  }

  /** The routing rule: a loop that succeeds appends the entry lines' fields
      to `entries` and the other lines to `meta`, both in line order. */
  lemma {:induction false} RouteFilter(s: string, ls: seq<Range>, n: nat, entries: seq<seq<Range>>, meta: string)
    requires RangesWithin(s, ls)
    ensures Route(s, ls, n, entries, meta).Ok? ==>
              Route(s, ls, n, entries, meta).value == (entries + EntryLines(s, ls, n), meta + MetaLines(s, ls, n))
    decreases |ls|
  {
    if |ls| == 0 {
      assert entries + [] == entries && meta + [] == meta;
    } else if FieldsOf(s, ls[0]).Ok? {
      RangesWithinTail(s, ls);
      var tail := ls[1..];
      var parts := FieldsOf(s, ls[0]).value;
      if IsEntryLine(s, ls[0], n) {
        RouteFilter(s, tail, n, entries + [parts], meta);
        RouteEntryStep(s, ls, n);
        Assoc3(entries, [parts], EntryLines(s, tail, n));
      } else {
        RouteFilter(s, tail, n, entries, meta + Text(s, ls[0]) + "\n");
        RouteMetaStep(s, ls, n);
        Assoc4(meta, Text(s, ls[0]), "\n", MetaLines(s, tail, n));
      }
    }
  }

  /** An entry line adds its fields to the entries and nothing to `meta`. */
  lemma RouteEntryStep(s: string, ls: seq<Range>, n: nat)
    requires RangesWithin(s, ls) && |ls| > 0 && IsEntryLine(s, ls[0], n)
    ensures RangesWithin(s, ls[1..])
    ensures EntryLines(s, ls, n) == [FieldsOf(s, ls[0]).value] + EntryLines(s, ls[1..], n)
    ensures MetaLines(s, ls, n) == MetaLines(s, ls[1..], n)
  {
    RangesWithinTail(s, ls);
    assert MetaLines(s, ls, n) == [] + MetaLines(s, ls[1..], n);
  }

  /** Any other line adds itself and a newline to `meta` and nothing to the entries. */
  lemma RouteMetaStep(s: string, ls: seq<Range>, n: nat)
    requires RangesWithin(s, ls) && |ls| > 0 && !IsEntryLine(s, ls[0], n)
    ensures RangesWithin(s, ls[1..])
    ensures EntryLines(s, ls, n) == EntryLines(s, ls[1..], n)
    ensures MetaLines(s, ls, n) == Text(s, ls[0]) + "\n" + MetaLines(s, ls[1..], n)
  {
    RangesWithinTail(s, ls);
    assert EntryLines(s, ls, n) == [] + EntryLines(s, ls[1..], n);
  }

  lemma Assoc3<T>(a: seq<T>, b: seq<T>, c: seq<T>)
    ensures a + b + c == a + (b + c)
  {
  }

  lemma Assoc4<T>(a: seq<T>, b: seq<T>, c: seq<T>, d: seq<T>)
    ensures a + b + c + d == a + (b + c + d)
  {
  }

  /** Every line lands exactly once: as an entry with one field per heading,
      or as one newline-terminated line of `meta`. */
  lemma {:induction false} RouteSpec(s: string, ls: seq<Range>, n: nat, entries: seq<seq<Range>>, meta: string)
    requires LinesIn(s, ls)
    requires Route(s, ls, n, entries, meta).Ok?
    requires AllFields(s, entries, n)
    ensures var res := Route(s, ls, n, entries, meta).value;
            AllFields(s, res.0, n)
            && |res.0| + Newlines(res.1) == |entries| + Newlines(meta) + |ls|
            && res == (entries + EntryLines(s, ls, n), meta + MetaLines(s, ls, n))
    decreases |ls|
  {
    RouteFilter(s, ls, n, entries, meta);
    if |ls| > 0 {
      var parts := FieldsOf(s, ls[0]).value;
      FieldsOfFields(s, ls[0]);
      assert LinesIn(s, ls[1..]) by {
        forall i | 0 <= i < |ls| - 1 ensures ls[1..][i] == ls[i + 1] { }
      }
      if |parts| != n || IsComment(s, ls[0]) {
        var line := Text(s, ls[0]);
        RouteSpec(s, ls[1..], n, entries, meta + line + "\n");
        NewlinesAppend(meta, line);
        NewlinesAppend(meta + line, "\n");
        ClearNotIn(s, '\n', ls[0].start, ls[0].end);
        NoNewlines(line);
        assert Newlines("\n") == 1 by {
          assert "\n"[..0] == [];
        }
      } else {
        assert AllFields(s, entries + [parts], n) by {
          forall i | 0 <= i < |entries| + 1 ensures |(entries + [parts])[i]| == n {
          }
        }
        RouteSpec(s, ls[1..], n, entries + [parts], meta);
      }
    }
  }

  /** A loaded table: one field per heading in every entry, all fields inside
      the text and trimmed, and every line after the header an entry or a
      line of `meta`. */
  lemma LoadSpec(backing: string)
    requires Load(backing).Ok?
    ensures var v := Load(backing).value;
            |v.headings| >= 1
            && (forall j :: 0 <= j < |v.headings| ==> IsField(backing, v.headings[j]))
            && AllFields(backing, v.entries, |v.headings|)
            && |v.entries| + Newlines(v.meta) == |LinesFrom(backing, 0)| - 1
            && v.headings == FieldsOf(backing, LinesFrom(backing, 0)[0]).value
            && v.entries == EntryLines(backing, LaterLines(backing), |v.headings|)
            && v.meta == MetaLines(backing, LaterLines(backing), |v.headings|)
  {
    var lines := LinesFrom(backing, 0);
    LinesFromClear(backing, 0);
    var headings := FieldsOf(backing, lines[0]).value;
    FieldsOfFields(backing, lines[0]);
    LinesInRest(backing, lines);
    RouteSpec(backing, lines[1..], |headings|, [], []);
  }

  /** The lines after the header line. */
  function LaterLines(backing: string): (ls: seq<Range>)
    ensures LinesIn(backing, ls) && RangesWithin(backing, ls)
  {
    var lines := LinesFrom(backing, 0);
    LinesFromClear(backing, 0);
    if |lines| == 0 then []
    else
      LinesInRest(backing, lines);
      lines[1..]
  }

  /** The text has no line, or a piece of its header or of a later line
      that the trim refuses. */
  predicate LoadPanics(backing: string)
  {
    var lines := LinesFrom(backing, 0);
    LinesFromClear(backing, 0);
    |lines| == 0 || FieldsOf(backing, lines[0]).Err? || SomeLinePanics(backing, LaterLines(backing))
  }

  /** Loading fails, always with a panic, exactly when `LoadPanics`. */
  lemma LoadFails(backing: string)
    ensures Load(backing).Err? <==> LoadPanics(backing)
    ensures Load(backing).Err? ==> Load(backing).error == Panic
  {
    var lines := LinesFrom(backing, 0);
    LinesFromClear(backing, 0);
    if |lines| > 0 {
      LinesInRest(backing, lines);
      if FieldsOf(backing, lines[0]).Ok? {
        RouteFails(backing, lines[1..], |FieldsOf(backing, lines[0]).value|, [], []);
      }
    }
  }

  /** `load_pipe_separated_vars`: the header line, then the loop that sends
      each further line to `entries` or `meta`. */
  method LoadPipeSeparatedVars(backing: string) returns (r: Result<Vars>)
    ensures r == Load(backing)
  {
    var lines := LinesFrom(backing, 0);
    LinesFromClear(backing, 0);
    if |lines| == 0 {
      return Err(Panic);
    }
    var header := FieldsOf(backing, lines[0]);
    if header.Err? {
      return Err(header.error);
    }
    var headings := header.value;
    var meta: string := [];
    var entries: seq<seq<Range>> := [];
    var rest := lines[1..];
    LinesInRest(backing, lines);
    while |rest| > 0
      invariant RangesWithin(backing, rest)
      invariant Route(backing, lines[1..], |headings|, [], []) == Route(backing, rest, |headings|, entries, meta)
      decreases |rest|
    {
      var line := rest[0];
      var parts := FieldsOf(backing, line);
      if parts.Err? {
        return Err(parts.error);
      }
      if |parts.value| != |headings| || IsComment(backing, line) {
        meta := meta + Text(backing, line) + "\n";
      } else {
        entries := entries + [parts.value];
      }
      assert RangesWithin(backing, rest[1..]) by {
        forall i | 0 <= i < |rest| - 1 ensures rest[1..][i] == rest[i + 1] { }
      }
      rest := rest[1..];
    }
    return Ok(Vars(backing, headings, entries, meta));
  }

  // ---------------------------------------------------------------- picking a CDN

  /** The ranges of a table lie inside its text. */
  predicate RangesIn(v: Vars)
  {
    forall i, j :: 0 <= i < |v.entries| && 0 <= j < |v.entries[i]| ==> v.entries[i][j].start <= v.entries[i][j].end <= |v.storage|
  }

  /** `entries()`: the text of every field of every entry. */
  function EntryTexts(v: Vars): (r: seq<seq<string>>)
    requires RangesIn(v)
    ensures |r| == |v.entries| && forall i :: 0 <= i < |r| ==> |r[i]| == |v.entries[i]|
  {
    seq(|v.entries|, i requires 0 <= i < |v.entries| =>
      seq(|v.entries[i]|, j requires 0 <= j < |v.entries[i]| => Text(v.storage, v.entries[i][j])))
  }

  /** `pat` occurs in `s` at position `i`. */
  predicate MatchAt(s: string, i: nat, pat: string)
  {
    i + |pat| <= |s| && s[i..i + |pat|] == pat
  }

  /** `str::contains` of a string. */
  predicate Contains(s: string, pat: string)
  {
    exists i :: 0 <= i <= |s| - |pat| && MatchAt(s, i, pat)
  }

  /** A host `pick_cdn` may take: an https one, and of Blizzard's own CDN
      when `own` asks for that. */
  predicate Wanted(t: string, own: bool)
  {
    Contains(t, "https://") && (own ==> Contains(t, "cdn.blizzard.com"))
  }

  /** The first wanted host of a list, if any. */
  function FirstWanted(ts: seq<string>, own: bool): (r: Option<nat>)
    ensures r.Some? ==> r.value < |ts| && Wanted(ts[r.value], own)
    ensures r.Some? ==> forall j :: 0 <= j < r.value ==> !Wanted(ts[j], own)
    ensures r.None? ==> forall j :: 0 <= j < |ts| ==> !Wanted(ts[j], own)
  {
    if |ts| == 0 then None
    else if Wanted(ts[0], own) then Some(0)
    else match FirstWanted(ts[1..], own)
      case None => None
      case Some(k) => Some(k + 1)
  }

  /** The host of the list `pick_cdn` takes: the first Blizzard https host,
      else the first https host; none panics at the `unwrap`. */
  function ChooseHost(ts: seq<string>): (r: Option<string>)
    ensures r.Some? ==> r.value in ts && Wanted(r.value, false)
    ensures r.Some? && (exists j :: 0 <= j < |ts| && Wanted(ts[j], true)) ==> Wanted(r.value, true)
    ensures r.None? <==> forall j :: 0 <= j < |ts| ==> !Wanted(ts[j], false)
  {
    match FirstWanted(ts, true)
    case Some(i) => Some(ts[i])
    case None =>
      match FirstWanted(ts, false)
      case Some(i) => Some(ts[i])
      case None => None
  }

  /** The host up to its first `?`, if it has one. */
  function BeforeQuery(url: string): (r: string)
    ensures '?' !in r && r <= url
    ensures r == url || url[|r|] == '?'
  {
    var q := NextOf(url, '?', 0, |url|);
    NextOfClear(url, '?', 0, |url|, q);
    ClearNotIn(url, '?', 0, q);
    assert url[..q] == url[0..q];
    url[..q]
  }

  /** The first entry whose first field is `us`; an empty entry before it
      panics at `ele[0]`, and so does a table with none. */
  function FirstUs(es: seq<seq<string>>): (r: Result<nat>)
    ensures r.Ok? ==> r.value < |es| && |es[r.value]| > 0 && es[r.value][0] == "us"
    ensures r.Ok? ==> forall j :: 0 <= j < r.value ==> |es[j]| > 0 && es[j][0] != "us"
    ensures r.Err? ==> r.error == Panic
  {
    if |es| == 0 then Err(Panic)
    else if |es[0]| == 0 then Err(Panic)
    else if es[0][0] == "us" then Ok(0)
    else match FirstUs(es[1..])
      case Err(e) => Err(e)
      case Ok(k) => Ok(k + 1)
  }

  /** `pick_cdn`: from the first `us` entry, the chosen host of its
      space-separated fourth field, without its query, then the path of its
      second field and a slash. An entry with fewer than four fields panics. */
  function PickCdn(es: seq<seq<string>>): (r: Result<string>)
    ensures r.Ok? <==> FirstUs(es).Ok? && |es[FirstUs(es).value]| >= 4
                       && ChooseHost(Split(es[FirstUs(es).value][3], ' ')).Some?
    ensures r.Ok? ==> var ele := es[FirstUs(es).value];
                      var host := ChooseHost(Split(ele[3], ' '));
                      host.Some? && r.value == BeforeQuery(host.value) + ele[1] + "/"
    ensures r.Err? ==> r.error == Panic
  {
    match FirstUs(es)
    case Err(e) => Err(e)
    case Ok(i) =>
      var ele := es[i];
      if |ele| < 4 then Err(Panic)
      else
        match ChooseHost(Split(ele[3], ' '))
        case None => Err(Panic)
        case Some(url) => Ok(BeforeQuery(url) + ele[1] + "/")
  }
}
