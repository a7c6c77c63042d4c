/**
 * The client's command-line sequence syntax, `item[~duration]|item[~duration]|...`:
 * split on `|`, take an optional `~duration` suffix off each piece, and make
 * each item a time descriptor when it holds `%` followed by a letter, else a
 * text descriptor.
 */
module SequenceSpec {
  import opened Wrappers
  import opened Messages
  import opened Client

  /** The index of the last `c` in `s`, or -1. */
  function LastIndexOf(s: string, c: char): (k: int)
    ensures -1 <= k < |s|
    ensures k >= 0 ==> s[k] == c
    ensures forall j | k < j < |s| :: s[j] != c
    decreases |s|
  {
    if |s| == 0 then -1
    else if s[|s| - 1] == c then |s| - 1
    else LastIndexOf(s[..|s| - 1], c)
  }

  /** Python's `s.split(sep)` for a one-character separator. */
  function Split(s: string, sep: char): (parts: seq<string>)
    ensures |parts| >= 1
    ensures forall i | 0 <= i < |parts| :: sep !in parts[i]
    decreases |s|
  {
    var k := LastIndexOf(s, sep);
    if k < 0 then
      assert forall j | 0 <= j < |s| :: s[j] != sep;
      [s]
    else
      Split(s[..k], sep) + [s[k + 1..]]
  }

  /** Python's `sep.join(parts)`. */
  function Join(parts: seq<string>, sep: char): string
    decreases |parts|
  {
    if |parts| == 0 then ""
    else if |parts| == 1 then parts[0]
    else Join(parts[..|parts| - 1], sep) + [sep] + parts[|parts| - 1]
  }

  /** Splitting loses nothing: joining the pieces gives back the input. */
  lemma {:induction false} JoinSplit(s: string, sep: char)
    ensures Join(Split(s, sep), sep) == s
    decreases |s|
  {
    var k := LastIndexOf(s, sep);
    if k >= 0 {
      var init := Split(s[..k], sep);
      JoinSplit(s[..k], sep);
      var parts := Split(s, sep);
      assert parts[..|parts| - 1] == init;
      assert s == s[..k] + [sep] + s[k + 1..];
    }
  }

  /** The last piece is what follows the last separator; the others re-join to what precedes it. */
  lemma SplitLast(s: string, sep: char)
    ensures var parts := Split(s, sep);
      var k := LastIndexOf(s, sep);
      && parts[|parts| - 1] == s[k + 1..]
      && Join(parts[..|parts| - 1], sep) == (if k < 0 then "" else s[..k])
  {
    var k := LastIndexOf(s, sep);
    var parts := Split(s, sep);
    if k < 0 {
      assert parts == [s];
      assert parts[..|parts| - 1] == [];
    } else {
      var init := Split(s[..k], sep);
      assert parts == init + [s[k + 1..]];
      assert parts[..|parts| - 1] == init;
      JoinSplit(s[..k], sep);
    }
  }

  predicate IsAsciiLetter(c: char) {
    'a' <= c <= 'z' || 'A' <= c <= 'Z'
  }

  /** What `.*$` accepts at the end of Python's `re.match`: no newline, except one final newline. */
  predicate RestOfLine(r: string) {
    '\n' !in r || (|r| > 0 && r[|r| - 1] == '\n' && '\n' !in r[..|r| - 1])
  }

  /** `re.match(r"^.*%[a-zA-Z].*$", item)`: a `%` and a letter on the first line, which must be the only line. */
  predicate IsTimeFormat(item: string) {
    exists i | 0 <= i < |item| - 1 ::
      item[i] == '%' && IsAsciiLetter(item[i + 1]) && '\n' !in item[..i] && RestOfLine(item[i + 2..])
  }

  /** On one line, an item is a time format exactly when `%` is immediately followed by an ASCII letter. */
  lemma TimeFormatOneLine(item: string)
    requires '\n' !in item
    ensures IsTimeFormat(item) <==> exists i | 0 <= i < |item| - 1 :: item[i] == '%' && IsAsciiLetter(item[i + 1])
  {
    if exists i | 0 <= i < |item| - 1 :: item[i] == '%' && IsAsciiLetter(item[i + 1]) {
      var i :| 0 <= i < |item| - 1 && item[i] == '%' && IsAsciiLetter(item[i + 1]);
      assert '\n' !in item[..i] && '\n' !in item[i + 2..];
    }
  }

  /**
   * Examples of the classification: a clock pattern is a time format, and
   * so is a text that happens to hold `%` and a letter; a `%` before a space
   * or at the end is not; a `%` directive after a line break does not match.
   */
  lemma TimeFormatExamples()
    ensures IsTimeFormat("%H:%M")
    ensures IsTimeFormat("50%off")
    ensures !IsTimeFormat("100%")
    ensures !IsTimeFormat("5% x")
    ensures !IsTimeFormat("a\n%H")
    ensures IsTimeFormat("%H\n")
  {
    assert "%H:%M"[0] == '%' && IsAsciiLetter("%H:%M"[1]) && RestOfLine("%H:%M"[2..]);
    assert "50%off"[2] == '%' && IsAsciiLetter("50%off"[3]) && RestOfLine("50%off"[4..]);
    assert "%H\n"[2..] == "\n" && "%H\n"[..0] == [];
    assert "%H\n"[0] == '%' && IsAsciiLetter("%H\n"[1]) && RestOfLine("%H\n"[2..]);
    assert "a\n%H"[..2] == "a\n";
  }

  /** One piece, its optional `~duration` taken off. */
  datatype Piece = Piece(item: string, duration: Option<real>)

  /**
   * The `try` block for one piece: when the text after the last `~` is a
   * number, it is the duration and the item is what precedes that `~`;
   * otherwise the piece is kept whole without a duration. `parseNumber`
   * stands for Python's `float()`.
   */
  function ParsePiece(piece: string, parseNumber: string -> Option<real>): Piece {
    var parts := Split(piece, '~');
    match parseNumber(parts[|parts| - 1])
    case Some(d) => Piece(Join(parts[..|parts| - 1], '~'), Some(d))
    case None => Piece(piece, None)
  }

  /** The descriptor the client appends for one piece. */
  function PieceDescriptor(piece: string, parseNumber: string -> Option<real>): Message {
    var p := ParsePiece(piece, parseNumber);
    if IsTimeFormat(p.item) then MakeTime(p.item, p.duration) else MakeText(p.item, p.duration)
  }

  /**
   * The outcomes of one piece: a numeric suffix after the last `~` becomes
   * the duration and the item is the text before that `~` (the empty item when
   * there is no `~` and the whole piece is numeric); otherwise the piece is
   * the item and there is no duration.
   */
  lemma PieceOutcome(piece: string, parseNumber: string -> Option<real>)
    ensures var k := LastIndexOf(piece, '~');
      var p := ParsePiece(piece, parseNumber);
      && (parseNumber(piece[k + 1..]).Some? ==>
            p == Piece(if k < 0 then "" else piece[..k], parseNumber(piece[k + 1..])))
      && (parseNumber(piece[k + 1..]).None? ==> p == Piece(piece, None))
  {
    SplitLast(piece, '~');
  }

  /**
   * The parsing loop of the client's `main`: one descriptor per `|`-separated
   * piece of `value`, in order.
   */
  method ParseSequence(value: string, parseNumber: string -> Option<real>) returns (sequence: seq<Message>)
    ensures var pieces := Split(value, '|');
      && |sequence| == |pieces|
      && forall j | 0 <= j < |pieces| :: sequence[j] == PieceDescriptor(pieces[j], parseNumber)
  {
    sequence := [];
    var items := Split(value, '|');
    for i := 0 to |items|
      invariant |sequence| == i
      invariant forall j | 0 <= j < i :: sequence[j] == PieceDescriptor(items[j], parseNumber)
    {
      var item := items[i];
      var duration: Option<real>;
      var parts := Split(item, '~');
      match parseNumber(parts[|parts| - 1]) {
        case Some(d) =>
          duration := Some(d);
          item := Join(parts[..|parts| - 1], '~');
        case None =>
          duration := None;
      }
      if IsTimeFormat(item) {
        sequence := sequence + [MakeTime(item, duration)];
      } else {
        sequence := sequence + [MakeText(item, duration)];
      }
    }
  }
}
