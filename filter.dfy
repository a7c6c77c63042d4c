/**
 * The server's `_filter_ascii`: every character a display cannot show is
 * dropped (not substituted) from a text, a time format, and each item of a
 * sequence, before the message is stored.
 */
module AsciiFilter {
  import opened Wrappers
  import opened Messages

  /** The accented characters the displays support beyond 7-bit ASCII: ä ö ü Ä Ö Ü ß. */
  const Umlauts: set<char> := {'\U{00E4}', '\U{00F6}', '\U{00FC}', '\U{00C4}', '\U{00D6}', '\U{00DC}', '\U{00DF}'}

  predicate Supported(c: char) {
    c as int <= 127 || c in Umlauts
  }

  /** The supported characters of `s`, in their original order. */
  function Filtered(s: string): (r: string)
    ensures |r| <= |s|
    ensures forall i | 0 <= i < |r| :: Supported(r[i])
    decreases |s|
  {
    if |s| == 0 then ""
    else Filtered(s[..|s| - 1]) + (if Supported(s[|s| - 1]) then [s[|s| - 1]] else "")
  }

  /** `a` can be obtained from `b` by deleting characters. */
  ghost predicate IsSubsequence(a: string, b: string)
    decreases |b|
  {
    if |a| == 0 then true
    else if |b| == 0 then false
    else if a[|a| - 1] == b[|b| - 1] then IsSubsequence(a[..|a| - 1], b[..|b| - 1])
    else IsSubsequence(a, b[..|b| - 1])
  }

  /** The character loop of `_filter_ascii`. */
  method FilterText(s: string) returns (r: string)
    ensures r == Filtered(s)
  {
    r := "";
    for i := 0 to |s|
      invariant r == Filtered(s[..i])
    {
      if Supported(s[i]) {
        r := r + [s[i]];
      }
      assert s[..i + 1][..i] == s[..i];
    }
    assert s[..|s|] == s;
  }

  lemma {:induction false} FilteredIsSubsequence(s: string)
    ensures IsSubsequence(Filtered(s), s)
    decreases |s|
  {
    if |s| > 0 {
      var init := s[..|s| - 1];
      FilteredIsSubsequence(init);
      if Supported(s[|s| - 1]) {
        var r := Filtered(s);
        assert r[..|r| - 1] == Filtered(init);
      } else {
        assert Filtered(s) == Filtered(init);
        SubsequenceDropLast(Filtered(init), init, s);
      }
    }
  }

  /** A subsequence of `b` stays one when a character is appended to `b`. */
  lemma {:induction false} SubsequenceDropLast(a: string, b: string, bc: string)
    requires IsSubsequence(a, b)
    requires |bc| == |b| + 1 && bc[..|b|] == b
    ensures IsSubsequence(a, bc)
    decreases |b|, 1
  {
    if |a| > 0 && a[|a| - 1] == bc[|bc| - 1] {
      SubsequenceOfPrefix(a[..|a| - 1], a, b);
    }
  }

  /** Removing the last character of `a` keeps it a subsequence of `b`. */
  lemma {:induction false} SubsequenceOfPrefix(a': string, a: string, b: string)
    requires IsSubsequence(a, b)
    requires |a| > 0 && a' == a[..|a| - 1]
    ensures IsSubsequence(a', b)
    decreases |b|, 0
  {
    if |b| > 0 {
      var b' := b[..|b| - 1];
      if a[|a| - 1] == b[|b| - 1] {
        SubsequenceDropLast(a', b', b);
      } else {
        SubsequenceOfPrefix(a', a, b');
        SubsequenceDropLast(a', b', b);
      }
    }
  }

  /** Every occurrence of a supported character is kept, every other one dropped. */
  lemma {:induction false} FilteredCounts(s: string, c: char)
    ensures multiset(Filtered(s))[c] == if Supported(c) then multiset(s)[c] else 0
    decreases |s|
  {
    if |s| > 0 {
      var init := s[..|s| - 1];
      FilteredCounts(init, c);
      assert s == init + [s[|s| - 1]];
    }
  }

  /** Text made only of supported characters passes through unchanged. */
  lemma {:induction false} FilteredKeepsSupported(s: string)
    requires forall i | 0 <= i < |s| :: Supported(s[i])
    ensures Filtered(s) == s
    decreases |s|
  {
    if |s| > 0 {
      FilteredKeepsSupported(s[..|s| - 1]);
    }
  }

  lemma FilteredIdempotent(s: string)
    ensures Filtered(Filtered(s)) == Filtered(s)
  {
    FilteredKeepsSupported(Filtered(s));
  }

  /** `_filter_ascii` on one descriptor: texts and formats are filtered, anything else is returned as is. */
  function FilteredItem(m: Message): Message {
    match m
    case Text(t, d) => Text(Filtered(t), d)
    case Time(f, d) => Time(Filtered(f), d)
    case Sequence(_, _) => m
  }

  /** What `set_message` stores: a text or time filtered, or every item of a sequence filtered. */
  function FilteredMessage(m: Message): Message {
    match m
    case Sequence(ms, interval) => Sequence(seq(|ms|, i requires 0 <= i < |ms| => FilteredItem(ms[i])), interval)
    case _ => FilteredItem(m)
  }

  /** `_filter_ascii` */
  method FilterItem(m: Message) returns (r: Message)
    ensures r == FilteredItem(m)
  {
    match m
    case Text(t, d) =>
      var text := FilterText(t);
      r := Text(text, d);
    case Time(f, d) =>
      var text := FilterText(f);
      r := Time(text, d);
    case Sequence(_, _) =>
      r := m;
  }

  /** The filtering step of `set_message`, item by item for a sequence. */
  method FilterMessage(m: Message) returns (r: Message)
    ensures r == FilteredMessage(m)
  {
    if m.Sequence? {
      var items := m.messages;
      for index := 0 to |m.messages|
        invariant |items| == |m.messages|
        invariant forall j | 0 <= j < index :: items[j] == FilteredItem(m.messages[j])
        invariant forall j | index <= j < |items| :: items[j] == m.messages[j]
      {
        var item := FilterItem(items[index]);
        items := items[index := item];
      }
      r := Sequence(items, m.interval);
    } else {
      r := FilterItem(m);
    }
  }

  /** Filtering changes only characters: the kind, durations, interval and item count are kept. */
  lemma FilteredMessageShape(m: Message)
    ensures var r := FilteredMessage(m);
      && (r.Text? <==> m.Text?) && (r.Time? <==> m.Time?) && (r.Sequence? <==> m.Sequence?)
      && Duration(r) == Duration(m)
      && (m.Text? ==> IsSubsequence(r.text, m.text))
      && (m.Time? ==> IsSubsequence(r.format, m.format))
      && (m.Sequence? ==>
            && r.interval == m.interval && |r.messages| == |m.messages|
            && forall i | 0 <= i < |m.messages| :: r.messages[i] == FilteredItem(m.messages[i]))
      && (WellFormed(Some(r)) <==> WellFormed(Some(m)))
  {
    match m
    case Text(t, _) => FilteredIsSubsequence(t);
    case Time(f, _) => FilteredIsSubsequence(f);
    case Sequence(_, _) =>
  }

  /** Storing an already stored message again changes nothing. */
  lemma FilteredMessageIdempotent(m: Message)
    ensures FilteredMessage(FilteredMessage(m)) == FilteredMessage(m)
  {
    match m
    case Text(t, _) => FilteredIdempotent(t);
    case Time(f, _) => FilteredIdempotent(f);
    case Sequence(ms, interval) =>
      var once := FilteredMessage(m);
      forall i | 0 <= i < |ms|
        ensures FilteredItem(once.messages[i]) == once.messages[i]
      {
        match ms[i]
        case Text(t, _) => FilteredIdempotent(t);
        case Time(f, _) => FilteredIdempotent(f);
        case Sequence(_, _) =>
      }
  }
}
