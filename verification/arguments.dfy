/** `parse_arguments`: splitting a chat message into command arguments.

    The message is split at every single space. The pieces are then folded
    left to right with one piece of state, the quote character of a quoted
    argument that is still open. A piece starting with `'` or `"` opens a
    quoted argument unless it also ends with that quote; while an argument is
    open, pieces are collected with the spaces between them restored until a
    piece ends with the opening quote. Empty arguments are dropped at the
    end, and so is the text of an argument still open when the message ends. */
module Arguments {
  import opened Wrappers
  import opened Text
  import opened Seqs

  const SingleQuote: char := '\''
  const DoubleQuote: char := '"'

  predicate IsQuote(c: char) {
    c == SingleQuote || c == DoubleQuote
  }

  /** The fold state: the arguments found so far, the text of the argument
      being collected, and its opening quote while it is open. */
  datatype Scan = Scan(arguments: seq<string>, current: string, separator: Option<char>)

  const Start: Scan := Scan([], "", None)

  /** No argument is open, and none is being collected. */
  predicate Closed(st: Scan) {
    st.separator.None? && st.current == ""
  }

  /** Handles a piece `stripped` that followed an opening quote `q`: it is a
      whole argument if it ends with `q`, else it opens one. */
  function OpenQuoted(st: Scan, stripped: string, q: char): Scan {
    if EndsWith(stripped, q) then
      Scan(st.arguments + [stripped[..|stripped| - 1]], st.current, None)
    else
      Scan(st.arguments, st.current + stripped, Some(q))
  }

  /** One iteration of the loop of `parse_arguments`. */
  function Step(st: Scan, arg: string): Scan {
    match st.separator
    case Some(q) =>
      var current := st.current + " ";
      if EndsWith(arg, q) then
        Scan(st.arguments + [current + arg[..|arg| - 1]], "", None)
      else
        Scan(st.arguments, current + arg, Some(q))
    case None =>
      if StartsWith(arg, SingleQuote) then OpenQuoted(st, arg[1..], SingleQuote)
      else if StartsWith(arg, DoubleQuote) then OpenQuoted(st, arg[1..], DoubleQuote)
      else Scan(st.arguments + [arg], st.current, None)
  }

  /** The loop over the pieces. */
  function Fold(st: Scan, pieces: seq<string>): Scan
    decreases |pieces|
  {
    if |pieces| == 0 then st else Fold(Step(st, pieces[0]), pieces[1..])
  }

  predicate NonEmpty(s: string) {
    s != ""
  }

  /** `parse_arguments`. */
  function ParseArguments(message: string): (args: seq<string>)
    ensures forall i :: 0 <= i < |args| ==> args[i] != ""
  {
    var args := Filter(Fold(Start, Split(message, ' ')).arguments, NonEmpty);
    assert forall i :: 0 <= i < |args| ==> args[i] in args;
    args
  }

  /** Folding over a concatenation is folding over the parts in turn. */
  lemma {:induction false} FoldAppend(st: Scan, xs: seq<string>, ys: seq<string>)
    ensures Fold(st, xs + ys) == Fold(Fold(st, xs), ys)
    decreases |xs|
  {
    if |xs| > 0 {
      assert (xs + ys)[1..] == xs[1..] + ys;
      FoldAppend(Step(st, xs[0]), xs[1..], ys);
    } else {
      assert xs + ys == ys;
    }
  }

  /** Arguments already found play no part in the fold. */
  function WithEarlier(pre: seq<string>, st: Scan): Scan {
    st.(arguments := pre + st.arguments)
  }

  lemma {:induction false} FoldShift(pre: seq<string>, st: Scan, pieces: seq<string>)
    ensures Fold(WithEarlier(pre, st), pieces) == WithEarlier(pre, Fold(st, pieces))
    decreases |pieces|
  {
    if |pieces| > 0 {
      assert Step(WithEarlier(pre, st), pieces[0]) == WithEarlier(pre, Step(st, pieces[0]));
      FoldShift(pre, Step(st, pieces[0]), pieces[1..]);
    }
  }

  predicate StartsWithQuote(s: string) {
    StartsWith(s, SingleQuote) || StartsWith(s, DoubleQuote)
  }

  /** Without a piece that starts with a quote, every piece is an argument. */
  lemma {:induction false} FoldPlain(st: Scan, pieces: seq<string>)
    requires Closed(st)
    requires forall i :: 0 <= i < |pieces| ==> !StartsWithQuote(pieces[i])
    ensures Fold(st, pieces) == Scan(st.arguments + pieces, "", None)
    decreases |pieces|
  {
    if |pieces| > 0 {
      FoldPlain(Step(st, pieces[0]), pieces[1..]);
      assert st.arguments + [pieces[0]] + pieces[1..] == st.arguments + pieces;
    }
  }

  /** A message none of whose space-separated pieces starts with a quote
      gives exactly its non-empty pieces; quotes inside or at the end of a
      piece are kept as they are. */
  lemma PlainMessage(message: string)
    requires forall i :: 0 <= i < |Split(message, ' ')| ==> !StartsWithQuote(Split(message, ' ')[i])
    ensures ParseArguments(message) == Filter(Split(message, ' '), NonEmpty)
  {
    FoldPlain(Start, Split(message, ' '));
    assert Start.arguments + Split(message, ' ') == Split(message, ' ');
  }

  /** A quoted argument whose inner pieces do not end with the quote. */
  predicate ClosesOnlyAtEnd(body: string, q: char) {
    forall i :: 0 <= i < |Split(body, ' ')| - 1 ==> !EndsWith(Split(body, ' ')[i], q)
  }

  /** While an argument quoted by `q` is open, pieces that do not end with
      `q` are collected, each after a restored space; the other quote
      character closes nothing. */
  lemma {:induction false} FoldOpen(st: Scan, q: char, pieces: seq<string>)
    requires st.separator == Some(q)
    requires forall i :: 0 <= i < |pieces| ==> !EndsWith(pieces[i], q)
    ensures Fold(st, pieces) == Scan(st.arguments, st.current + Spaced(pieces), Some(q))
    decreases |pieces|
  {
    if |pieces| > 0 {
      FoldOpen(Step(st, pieces[0]), q, pieces[1..]);
      assert st.current + " " + pieces[0] + Spaced(pieces[1..]) == st.current + Spaced(pieces);
    }
  }

  /** Pieces each preceded by the space that separated them. */
  function Spaced(pieces: seq<string>): string {
    if |pieces| == 0 then "" else " " + pieces[0] + Spaced(pieces[1..])
  }

  lemma {:induction false} JoinIsSpaced(pieces: seq<string>)
    requires |pieces| >= 1
    ensures Join(pieces, ' ') == pieces[0] + Spaced(pieces[1..])
  {
    if |pieces| > 1 {
      JoinIsSpaced(pieces[1..]);
    }
  }

  /** The pieces of `q body q`: those of `body`, the first with `q` in front
      and the last with `q` behind. */
  lemma QuotedPieces(q: char, body: string)
    requires IsQuote(q)
    ensures var ps := Split(body, ' ');
            var n := |ps|;
            Split([q] + body + [q], ' ')
              == if n == 1 then [[q] + ps[0] + [q]]
                 else [[q] + ps[0]] + ps[1..n - 1] + [ps[n - 1] + [q]]
  {
    var ps := Split(body, ' ');
    if |ps| == 1 {
      assert Join(ps, ' ') == ps[0];
      SplitWithoutSeparator([q] + ps[0] + [q], ' ');
    } else {
      QuotedPiecesMany(q, ps);
    }
  }

  /** A join of several pieces: the first, the middle ones each after a
      space, a space and the last. */
  lemma JoinSpan(ps: seq<string>)
    requires |ps| > 1
    ensures Join(ps, ' ') == ps[0] + Spaced(ps[1..|ps| - 1]) + " " + ps[|ps| - 1]
  {
    JoinSnoc(ps);
    JoinInit(ps);
  }

  lemma JoinSnoc(ps: seq<string>)
    requires |ps| > 1
    ensures Join(ps, ' ') == Join(ps[..|ps| - 1], ' ') + " " + ps[|ps| - 1]
  {
    var n := |ps|;
    assert ps == ps[..n - 1] + [ps[n - 1]];
    JoinAppend(ps[..n - 1], [ps[n - 1]], ' ');
  }

  lemma JoinInit(ps: seq<string>)
    requires |ps| > 1
    ensures Join(ps[..|ps| - 1], ' ') == ps[0] + Spaced(ps[1..|ps| - 1])
  {
    var init := ps[..|ps| - 1];
    assert init[1..] == ps[1..|ps| - 1];
    JoinIsSpaced(init);
  }

  lemma Enclose(q: char, x: string, m: string, y: string)
    ensures [q] + (x + m + " " + y) + [q] == [q] + x + m + " " + (y + [q])
  {
  }

  lemma QuotedPiecesMany(q: char, ps: seq<string>)
    requires IsQuote(q) && |ps| > 1
    requires forall i :: 0 <= i < |ps| ==> ' ' !in ps[i]
    ensures Split([q] + Join(ps, ' ') + [q], ' ')
            == [[q] + ps[0]] + ps[1..|ps| - 1] + [ps[|ps| - 1] + [q]]
  {
    var n := |ps|;
    var mid := ps[1..n - 1];
    var qs := [[q] + ps[0]] + mid + [ps[n - 1] + [q]];
    assert |qs| == n && qs[0] == [q] + ps[0] && qs[n - 1] == ps[n - 1] + [q];
    assert qs[1..n - 1] == mid;
    JoinSpan(qs);
    JoinSpan(ps);
    Enclose(q, ps[0], Spaced(mid), ps[n - 1]);
    forall i | 0 <= i < n
      ensures ' ' !in qs[i]
    {
      if 0 < i < n - 1 {
        assert qs[i] == ps[i];
      }
    }
    SplitJoin(qs, ' ');
  }

  /** A quoted argument is collected with the spaces inside it preserved,
      runs of spaces included, whether or not it contains a space. */
  lemma QuotedArgument(st: Scan, q: char, body: string)
    requires Closed(st) && IsQuote(q)
    requires ClosesOnlyAtEnd(body, q)
    ensures Fold(st, Split([q] + body + [q], ' ')) == Scan(st.arguments + [body], "", None)
  {
    QuotedPieces(q, body);
    if |Split(body, ' ')| == 1 {
      QuotedWord(st, q, body);
    } else {
      QuotedSpan(st, q, Split(body, ' '));
    }
  }

  /** A quoted argument without spaces is one piece. */
  lemma QuotedWord(st: Scan, q: char, body: string)
    requires Closed(st) && IsQuote(q)
    requires |Split(body, ' ')| == 1
    ensures Fold(st, [[q] + Split(body, ' ')[0] + [q]]) == Scan(st.arguments + [body], "", None)
  {
    var w := Split(body, ' ')[0];
    var piece := [q] + w + [q];
    assert piece[1..] == w + [q];
    assert (w + [q])[..|w|] == w;
    assert Step(st, piece) == Scan(st.arguments + [w], "", None);
    assert Join(Split(body, ' '), ' ') == w;
  }

  /** A piece `q a` with `a` not ending in `q` opens an argument. */
  lemma OpenStep(st: Scan, q: char, a: string)
    requires Closed(st) && IsQuote(q) && !EndsWith(a, q)
    ensures Step(st, [q] + a) == Scan(st.arguments, a, Some(q))
  {
    assert ([q] + a)[1..] == a;
  }

  /** A piece `b q` closes the argument opened by `q`. */
  lemma CloseStep(st: Scan, q: char, b: string)
    requires st.separator == Some(q)
    ensures Step(st, b + [q]) == Scan(st.arguments + [st.current + " " + b], "", None)
  {
    assert (b + [q])[..|b|] == b;
  }

  /** Opening piece, collected pieces, closing piece. */
  lemma QuotedFold(st: Scan, q: char, a: string, mid: seq<string>, b: string)
    requires Closed(st) && IsQuote(q) && !EndsWith(a, q)
    requires forall i :: 0 <= i < |mid| ==> !EndsWith(mid[i], q)
    ensures Fold(st, [[q] + a] + mid + [b + [q]]) == Scan(st.arguments + [a + Spaced(mid) + " " + b], "", None)
  {
    OpenStep(st, q, a);
    var openSpan := Scan(st.arguments, a, Some(q));
    FoldOpen(openSpan, q, mid);
    CloseStep(Fold(openSpan, mid), q, b);
    FoldAppend(openSpan, mid, [b + [q]]);
    assert ([[q] + a] + mid + [b + [q]])[1..] == mid + [b + [q]];
  }

  /** A quoted argument with spaces: the first piece opens it, the middle
      pieces are collected and the last piece closes it. */
  lemma QuotedSpan(st: Scan, q: char, ps: seq<string>)
    requires Closed(st) && IsQuote(q)
    requires |ps| > 1
    requires forall i :: 0 <= i < |ps| - 1 ==> !EndsWith(ps[i], q)
    ensures Fold(st, [[q] + ps[0]] + ps[1..|ps| - 1] + [ps[|ps| - 1] + [q]])
            == Scan(st.arguments + [Join(ps, ' ')], "", None)
  {
    var n := |ps|;
    var mid := ps[1..n - 1];
    forall i | 0 <= i < |mid|
      ensures !EndsWith(mid[i], q)
    {
      assert mid[i] == ps[i + 1];
    }
    QuotedFold(st, q, ps[0], mid, ps[n - 1]);
    JoinSpan(ps);
  }

  /** A message that is one quoted argument yields that argument (or
      nothing when it is empty). */
  lemma QuotedMessage(q: char, body: string)
    requires IsQuote(q) && ClosesOnlyAtEnd(body, q)
    ensures ParseArguments([q] + body + [q]) == if body == "" then [] else [body]
  {
    QuotedArgument(Start, q, body);
  }

  /** The fold of a message leaves no argument open. */
  predicate EndsClosed(message: string) {
    Closed(Fold(Start, Split(message, ' ')))
  }

  /** After a message that leaves no argument open, the rest of the message
      is parsed on its own: arguments of `a b` are those of `a` followed by
      those of `b`. */
  lemma ParseConcat(a: string, b: string)
    requires EndsClosed(a)
    ensures ParseArguments(a + " " + b) == ParseArguments(a) + ParseArguments(b)
  {
    SplitConcat(a, ' ', b);
    assert a + " " + b == a + [' '] + b;
    var left := Fold(Start, Split(a, ' '));
    FoldAppend(Start, Split(a, ' '), Split(b, ' '));
    assert left == WithEarlier(left.arguments, Start);
    FoldShift(left.arguments, Start, Split(b, ' '));
    FilterAppend(left.arguments, Fold(Start, Split(b, ' ')).arguments, NonEmpty);
  }

  /** The text of a quoted argument that is never closed is dropped: no
      space-separated piece after the opening quote ends with it. */
  lemma UnclosedQuoteDropped(q: char, rest: string)
    requires IsQuote(q)
    requires forall i :: 0 <= i < |Split(rest, ' ')| ==> !EndsWith(Split(rest, ' ')[i], q)
    ensures ParseArguments([q] + rest) == []
  {
    QuotedPrefixPieces(q, rest);
    FoldUnclosed(q, Split(rest, ' '));
  }

  /** An argument opened by the first piece and closed by none: nothing is
      found. */
  lemma FoldUnclosed(q: char, ps: seq<string>)
    requires IsQuote(q) && |ps| >= 1
    requires forall i :: 0 <= i < |ps| ==> !EndsWith(ps[i], q)
    ensures Fold(Start, [[q] + ps[0]] + ps[1..]).arguments == []
  {
    var pieces := [[q] + ps[0]] + ps[1..];
    assert pieces[0] == [q] + ps[0] && pieces[1..] == ps[1..];
    OpenStep(Start, q, ps[0]);
    var openSpan := Scan([], ps[0], Some(q));
    forall i | 0 <= i < |ps[1..]|
      ensures !EndsWith(ps[1..][i], q)
    {
      assert ps[1..][i] == ps[i + 1];
    }
    FoldOpen(openSpan, q, ps[1..]);
  }

  /** The pieces of `q rest`: those of `rest`, the first with `q` in front. */
  lemma QuotedPrefixPieces(q: char, rest: string)
    requires IsQuote(q)
    ensures Split([q] + rest, ' ') == [[q] + Split(rest, ' ')[0]] + Split(rest, ' ')[1..]
  {
    var ps := Split(rest, ' ');
    var qs := [[q] + ps[0]] + ps[1..];
    assert forall i :: 0 <= i < |qs| ==> ' ' !in qs[i] by {
      forall i | 0 <= i < |qs|
        ensures ' ' !in qs[i]
      {
        if i > 0 {
          assert qs[i] == ps[i];
        }
      }
    }
    JoinIsSpaced(ps);
    JoinIsSpaced(qs);
    assert qs[1..] == ps[1..];
    SplitJoin(qs, ' ');
  }

  /** A plain word: non-empty, without spaces, not starting with a quote. */
  predicate Word(w: string) {
    w != "" && ' ' !in w && !StartsWithQuote(w)
  }

  /** A word on its own is one argument and leaves nothing open. */
  lemma WordAlone(w: string)
    requires Word(w)
    ensures Fold(Start, Split(w, ' ')) == Scan([w], "", None)
    ensures ParseArguments(w) == [w]
  {
    SplitWithoutSeparator(w, ' ');
    assert Fold(Start, [w]) == Step(Start, w);
  }

  /** Runs of spaces between words only produce empty pieces, which are
      dropped (the first unit test of `parse_arguments`). */
  lemma RunsOfSpacesAreDropped(a: string, b: string, c: string)
    requires Word(a) && Word(b) && Word(c)
    ensures ParseArguments(a + "  " + b + "  " + c) == [a, b, c]
  {
    var pieces := [a, "", b, "", c];
    SplitOfRuns(a, b, c);
    RunsText(a, b, c);
    FoldPlain(Start, pieces);
    assert [] + pieces == pieces;
    FilterOfRuns(a, b, c);
  }

  lemma SplitOfRuns(a: string, b: string, c: string)
    requires Word(a) && Word(b) && Word(c)
    ensures Split(a + [' '] + ("" + [' '] + (b + [' '] + ("" + [' '] + c))), ' ') == [a, "", b, "", c]
  {
    var x3 := "" + [' '] + c;
    var x2 := b + [' '] + x3;
    var x1 := "" + [' '] + x2;
    calc {
      Split(a + [' '] + x1, ' ');
      { SplitAfterPrefix(a, ' ', x1); }
      [a] + Split(x1, ' ');
      { SplitAfterPrefix("", ' ', x2); }
      [a] + ([""] + Split(x2, ' '));
      { SplitAfterPrefix(b, ' ', x3); }
      [a] + ([""] + ([b] + Split(x3, ' ')));
      { SplitAfterPrefix("", ' ', c); }
      [a] + ([""] + ([b] + ([""] + Split(c, ' '))));
      { SplitWithoutSeparator(c, ' '); }
      [a] + ([""] + ([b] + ([""] + [c])));
      [a, "", b, "", c];
    }
  }

  lemma RunsText(a: string, b: string, c: string)
    ensures a + [' '] + ("" + [' '] + (b + [' '] + ("" + [' '] + c))) == a + "  " + b + "  " + c
  {
    assert "" + [' '] + c == " " + c;
    assert [' '] + (" " + c) == "  " + c;
    assert a + [' '] + (" " + (b + "  " + c)) == a + "  " + (b + "  " + c);
  }

  lemma FilterOfRuns(a: string, b: string, c: string)
    requires a != "" && b != "" && c != ""
    ensures Filter([a, "", b, "", c], NonEmpty) == [a, b, c]
  {
    var p4: seq<string> := [c] + [];
    var p3 := [""] + p4;
    var p2 := [b] + p3;
    var p1 := [""] + p2;
    assert [a, "", b, "", c] == [a] + p1;
    calc {
      Filter([a] + p1, NonEmpty);
      { FilterCons(a, p1, NonEmpty); }
      [a] + Filter(p1, NonEmpty);
      { FilterCons("", p2, NonEmpty); }
      [a] + Filter(p2, NonEmpty);
      { FilterCons(b, p3, NonEmpty); }
      [a] + ([b] + Filter(p3, NonEmpty));
      { FilterCons("", p4, NonEmpty); }
      [a] + ([b] + Filter(p4, NonEmpty));
      { FilterCons(c, [], NonEmpty); }
      [a] + ([b] + ([c] + Filter([], NonEmpty)));
      [a, b, c];
    }
  }

  /** A word followed by a quoted argument with a space inside (the second
      unit test). */
  lemma WordThenQuoted(a: string, q: char, body: string)
    requires Word(a) && IsQuote(q) && ClosesOnlyAtEnd(body, q) && body != ""
    ensures ParseArguments(a + " " + ([q] + body + [q])) == [a, body]
  {
    WordAlone(a);
    ParseConcat(a, [q] + body + [q]);
    QuotedMessage(q, body);
  }

  /** A quoted argument that holds the other quote character, followed by a
      word that ends with a quote (the third unit test): neither quote inside
      an argument opens or closes anything. */
  lemma QuotedThenWord(q: char, body: string, w: string)
    requires IsQuote(q) && ClosesOnlyAtEnd(body, q) && body != "" && Word(w)
    ensures ParseArguments(([q] + body + [q]) + " " + w) == [body, w]
  {
    QuotedArgument(Start, q, body);
    assert EndsClosed([q] + body + [q]);
    ParseConcat([q] + body + [q], w);
    QuotedMessage(q, body);
    WordAlone(w);
  }
}
