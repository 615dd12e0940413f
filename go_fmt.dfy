/**
  `fmt.Errorf` called with a format string and no operands, as DownloadRewardsFile
  builds its all-failed error from the log (shared/services/rewards/utils.go).

  Text outside directives is copied. A directive is `%`, then flags, an optional
  argument index `[n]`, a width (digits or `*`), an optional precision (`.`
  followed by an optional index and digits or `*`), an optional argument index,
  and a verb. With no operands there is nothing to print for a verb:

  - `%%` gives `%`;
  - a verb `v` gives `%!v(MISSING)`, or `%!v(BADINDEX)` once an argument index
    was seen in the directive;
  - a `*` width or precision writes `%!(BADWIDTH)` or `%!(BADPREC)`;
  - a format that ends inside a directive gets `%!(NOVERB)`.

  Strings are sequences of characters, so one character is one rune; the
  characters directives are made of are all ASCII.
*/
module GoFmt {

  const NoVerb := "%!(NOVERB)"
  const BadWidth := "%!(BADWIDTH)"
  const BadPrec := "%!(BADPREC)"

  /** What one directive writes, and where the format goes on after it. */
  datatype Piece = Piece(text: string, next: nat)

  /** A digit run: whether it held a number, and where it ended. */
  datatype NumScan = NumScan(present: bool, next: nat)

  /** An argument index: where it ended, whether it was well formed, and whether a `[` was there at all. */
  datatype IndexScan = IndexScan(next: nat, found: bool, seen: bool)

  /**
    A directive up to its verb: where the verb should be, what a `*` wrote,
    whether an argument index came last, and whether any index was seen.
  */
  datatype Head = Head(next: nat, written: string, afterIndex: bool, indexSeen: bool)

  predicate IsFlag(c: char)
  {
    c == '#' || c == '0' || c == '+' || c == '-' || c == ' '
  }

  predicate IsDigit(c: char)
  {
    '0' <= c <= '9'
  }

  /** A verb that is read as such right after the `%`: nothing else a directive can start with. */
  predicate IsPlainVerb(c: char)
  {
    !IsFlag(c) && !IsDigit(c) && c != '[' && c != '*' && c != '.' && c != '%'
  }

  /** The text a verb without an operand gives. */
  function Missing(verb: char): (r: string)
    ensures |r| == 12 && r[..3] == ['%', '!', verb]
  {
    "%!" + [verb] + "(MISSING)"
  }

  /** The position after the flags that start at `i`. */
  function SkipFlags(s: string, i: nat): (k: nat)
    requires i <= |s|
    ensures i <= k <= |s|
    ensures k == |s| || !IsFlag(s[k])
    decreases |s| - i
  {
    if i == |s| || !IsFlag(s[i]) then i else SkipFlags(s, i + 1)
  }

  /**
    `parsenum` on `s[start..end]`: the digits from `start`. A number above
    10^6 followed by another digit is an overflow that gives no number and
    skips to `end`.
  */
  function ParseNum(s: string, start: nat, end: nat): (r: NumScan)
    requires start <= end <= |s|
    ensures start <= r.next <= end
    ensures start == end || !IsDigit(s[start]) ==> r == NumScan(false, start)
    ensures r.present ==> start < r.next
  {
    Digits(s, start, end, 0, false)
  }

  function Digits(s: string, i: nat, end: nat, num: nat, isNum: bool): (r: NumScan)
    requires i <= end <= |s|
    ensures i <= r.next <= end
    ensures i == end || !IsDigit(s[i]) ==> r == NumScan(isNum, i)
    ensures r.present && !isNum ==> i < r.next
    decreases end - i
  {
    if i < end && IsDigit(s[i]) then
      if num > 1_000_000 then NumScan(false, end)
      else Digits(s, i + 1, end, num * 10 + (s[i] as int - '0' as int), true)
    else NumScan(isNum, i)
  }

  /** The first `]` at or after `j`, or `|s|` when there is none. */
  function CloseBracket(s: string, j: nat): (k: nat)
    requires j <= |s|
    ensures j <= k <= |s|
    ensures k < |s| ==> s[k] == ']'
    decreases |s| - j
  {
    if j == |s| || s[j] == ']' then j else CloseBracket(s, j + 1)
  }

  /**
    `argNumber` with no operands: an index `[n]` at `i` is skipped. It is
    found when `n` is a plain number, and out of range either way.
  */
  function ArgIndex(s: string, i: nat): (r: IndexScan)
    requires i <= |s|
    ensures i <= r.next <= |s|
    ensures r.seen <==> i < |s| && s[i] == '['
    ensures !r.seen ==> r == IndexScan(i, false, false)
    ensures r.found ==> r.seen
  {
    if i == |s| || s[i] != '[' then IndexScan(i, false, false)
    else if |s| - i < 3 then IndexScan(i + 1, false, true)
    else
      var close := CloseBracket(s, i + 1);
      if close == |s| then IndexScan(i + 1, false, true)
      else
        var n := ParseNum(s, i + 1, close);
        IndexScan(close + 1, n.present && n.next == close, true)
  }

  /** Flags, an argument index and the width of the directive whose body starts at `i`. */
  function WidthPart(s: string, i: nat): (h: Head)
    requires i <= |s|
    ensures i <= h.next <= |s|
    ensures i < |s| && (IsPlainVerb(s[i]) || s[i] == '%') ==> h == Head(i, "", false, false)
    ensures i == |s| ==> h == Head(i, "", false, false)
  {
    var idx := ArgIndex(s, SkipFlags(s, i));
    if idx.next < |s| && s[idx.next] == '*' then Head(idx.next + 1, BadWidth, false, idx.seen)
    else Head(ParseNum(s, idx.next, |s|).next, "", idx.found, idx.seen)
  }

  /** The precision after `h`, when a `.` that is not the last character follows. */
  function PrecisionPart(s: string, h: Head): (r: Head)
    requires h.next <= |s|
    ensures h.next <= r.next <= |s|
    ensures h.next == |s| || s[h.next] != '.' ==> r == h
  {
    if h.next + 1 < |s| && s[h.next] == '.' then
      var idx := ArgIndex(s, h.next + 1);
      if idx.next < |s| && s[idx.next] == '*' then
        Head(idx.next + 1, h.written + BadPrec, false, h.indexSeen || idx.seen)
      else
        Head(ParseNum(s, idx.next, |s|).next, h.written, idx.found, h.indexSeen || idx.seen)
    else h
  }

  /**
    The directive whose `%` lies just before `i`: what it writes and where the
    format goes on. (Go also marks the index bad when a width or precision
    follows an index; an index was then seen, which already marks it bad.)
  */
  function Directive(s: string, i: nat): (r: Piece)
    requires i <= |s|
    ensures i <= r.next <= |s|
    ensures r.next == i ==> i == |s|
    ensures i == |s| ==> r == Piece(NoVerb, |s|)
    ensures i < |s| && s[i] == '%' ==> r == Piece("%", i + 1)
    ensures i < |s| && IsPlainVerb(s[i]) ==> r == Piece(Missing(s[i]), i + 1)
  {
    var h := PrecisionPart(s, WidthPart(s, i));
    var idx := if h.afterIndex then IndexScan(h.next, true, false) else ArgIndex(s, h.next);
    var v := idx.next;
    if v == |s| then Piece(h.written + NoVerb, |s|)
    else
      var verbText :=
        if s[v] == '%' then "%"
        else if h.indexSeen || idx.seen then "%!" + [s[v]] + "(BADINDEX)"
        else Missing(s[v]);
      Piece(h.written + verbText, v + 1)
  }

  /** The formatted text of `s` from position `i` on. */
  function Format(s: string, i: nat): string
    requires i <= |s|
    decreases |s| - i, 1
  {
    if i == |s| then ""
    else if s[i] != '%' then [s[i]] + Format(s, i + 1)
    else FormatDirective(s, i)
  }

  /** The formatted text of `s` from the directive whose `%` is at `i` on. */
  function FormatDirective(s: string, i: nat): string
    requires i < |s|
    decreases |s| - i, 0
  {
    var d := Directive(s, i + 1);
    d.text + Format(s, d.next)
  }

  /** The text of the error `fmt.Errorf(s)` returns. */
  function Errorf(s: string): string
  {
    Format(s, 0)
  }

  /** A character other than `%` is copied. */
  lemma FormatCopiesChar(s: string, i: nat)
    requires i < |s| && s[i] != '%'
    ensures Format(s, i) == [s[i]] + Format(s, i + 1)
  {
  }

  /** Text without `%` between `i` and `j` is copied as it is. */
  lemma {:induction false} FormatCopiesText(s: string, i: nat, j: nat)
    requires i <= j <= |s|
    requires forall k :: i <= k < j ==> s[k] != '%'
    ensures Format(s, i) == s[i..j] + Format(s, j)
    decreases j - i
  {
    if i < j {
      FormatCopiesChar(s, i);
      FormatCopiesText(s, i + 1, j);
      Regroup([s[i]], s[i + 1..j], Format(s, j));
      assert s[i..j] == [s[i]] + s[i + 1..j];
    }
  }

  lemma Regroup(a: string, b: string, c: string)
    ensures a + (b + c) == (a + b) + c
  {
  }

  /** A format without `%` is its own error text. */
  lemma ErrorfWithoutPercent(s: string)
    requires '%' !in s
    ensures Errorf(s) == s
  {
    FormatCopiesText(s, 0, |s|);
    assert s[0..|s|] == s;
  }

  /**
    The first directive: the text before it is copied and the directive is
    replaced by what it writes (`Directive` says what that is for `%%`, a
    plain verb and a trailing `%`).
  */
  lemma FirstDirective(p: string, q: string)
    requires '%' !in p
    ensures var s := p + "%" + q;
            var d := Directive(s, |p| + 1);
            Errorf(s) == p + d.text + Format(s, d.next)
  {
    var s := p + "%" + q;
    FormatCopiesText(s, 0, |p|);
    assert s[0..|p|] == p;
    assert s[|p|] == '%';
    assert Format(s, |p|) == FormatDirective(s, |p|);
  }

  /** The character after the first `%` is the first character of what follows it. */
  lemma VerbAfterPercent(p: string, q: string)
    requires q != []
    ensures (p + "%" + q)[|p|] == '%' && (p + "%" + q)[|p| + 1] == q[0]
  {
  }

  /** A plain verb with no operand is replaced by `%!v(MISSING)`. */
  lemma PlainVerbRewritten(p: string, q: string)
    requires '%' !in p
    requires q != [] && IsPlainVerb(q[0])
    ensures var s := p + "%" + q;
            Errorf(s) == p + Missing(q[0]) + Format(s, |p| + 2)
  {
    var s := p + "%" + q;
    assert Directive(s, |p| + 1) == Piece(Missing(q[0]), |p| + 2) by {
      VerbAfterPercent(p, q);
    }
    FirstDirective(p, q);
  }

  /**
    So the error text differs from a format whose first directive is a plain
    verb other than `!`: where the format has the verb, the text has `!`.
  */
  lemma PlainVerbChangesText(p: string, q: string)
    requires '%' !in p
    requires q != [] && IsPlainVerb(q[0]) && q[0] != '!'
    ensures Errorf(p + "%" + q) != p + "%" + q
  {
    var s := p + "%" + q;
    PlainVerbRewritten(p, q);
    var text := p + Missing(q[0]) + Format(s, |p| + 2);
    assert text[|p| + 1] == '!' by {
      assert Missing(q[0])[1] == '!';
    }
    VerbAfterPercent(p, q);
    assert text[|p| + 1] != s[|p| + 1];
  }

  /** `Errorf("100%%")` is `100%`. */
  lemma EscapedPercentExample()
    ensures Errorf("100%%") == "100%"
  {
    var pct := "100%%";
    assert pct == "100" + "%" + "%";
    FirstDirective("100", "%");
    assert pct[4] == '%';
    assert Directive(pct, 4) == Piece("%", 5);
    assert Format(pct, 5) == "";
  }

  /** `Errorf("bad %v")` is `bad %!v(MISSING)` for every plain verb `v`, such as `s`. */
  lemma MissingVerbExample(v: char)
    requires IsPlainVerb(v)
    ensures Errorf("bad %" + [v]) == "bad %!" + [v] + "(MISSING)"
  {
    var bad := "bad %" + [v];
    assert bad == "bad " + "%" + [v];
    PlainVerbRewritten("bad ", [v]);
    assert Format(bad, 6) == "";
  }
}
