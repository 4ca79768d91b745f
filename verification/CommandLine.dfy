/** Splitting a command line into arguments. */
module CommandLine {
  const NUL := '\0'
  const QUOTE := '"'
  const ESCAPE := '\\'

  // ----- escapes -----

  /** The characters at odd positions. */
  function OddChars(s: string): (r: string)
    ensures |r| == |s| / 2 && forall i :: 0 <= i < |r| ==> r[i] == s[2 * i + 1]
  {
    seq(|s| / 2, i requires 0 <= i < |s| / 2 => s[2 * i + 1])
  }

  /** What ProcessEscapes makes of a string: it asks whether the first character, rather than the
      current one, begins an escape. */
  function Processed(s: string): string {
    if s == "" || s[0] != ESCAPE then s
    else if |s| == 1 then ""
    else if s[1] != ESCAPE then s[1..]
    else OddChars(s)
  }

  /** Rewrites the string in the buffer, which ends at the first NUL, in place; n is its length
      and the result the new length. */
  method ProcessEscapes(buffer: array<char>, ghost n: nat) returns (length: nat)
    requires n < buffer.Length && buffer[n] == NUL && forall k :: 0 <= k < n ==> buffer[k] != NUL
    modifies buffer
    ensures length <= n && buffer[..length] == Processed(old(buffer[..n])) && buffer[length] == NUL
  {
    ghost var s := buffer[..n];
    var i, j, escaped := 0, 0, false;
    while buffer[j] != NUL
      invariant 0 <= i <= j <= n
      invariant forall k :: i <= k < buffer.Length ==> buffer[k] == old(buffer[k])
      invariant n == 0 || s[0] != ESCAPE ==> !escaped && i == j && buffer[..] == old(buffer[..])
      invariant n > 0 && s[0] == ESCAPE && j < 2 ==> i == 0 && escaped == (j == 1)
      invariant n > 1 && s[0] == ESCAPE && s[1] != ESCAPE && j >= 2 ==>
          !escaped && i == j - 1 && forall k :: 0 <= k < i ==> buffer[k] == s[k + 1]
      invariant n > 1 && s[0] == ESCAPE && s[1] == ESCAPE && j >= 2 ==>
          escaped == (j % 2 == 1) && i == j / 2 && forall k :: 0 <= k < i ==> buffer[k] == s[2 * k + 1]
      decreases n - j
    {
      if escaped {
        buffer[i] := buffer[j];
        i := i + 1;
        escaped := false;
      } else if buffer[0] == ESCAPE {
        escaped := true;
      } else {
        buffer[i] := buffer[j];
        i := i + 1;
      }
      j := j + 1;
    }
    buffer[i] := NUL;
    length := i;
    assert buffer[..i] == Processed(s);
  }

  /** What processing escapes is for: a backslash goes away and the character after it stays. */
  function Unescaped(s: string): (r: string)
    ensures |r| <= |s|
  {
    if s == "" then ""
    else if s[0] != ESCAPE then [s[0]] + Unescaped(s[1..])
    else if |s| == 1 then ""
    else [s[1]] + Unescaped(s[2..])
  }

  lemma {:induction false} UnescapedIsSame(s: string)
    ensures Unescaped(s) == s <==> ESCAPE !in s
    ensures ESCAPE in s ==> |Unescaped(s)| < |s|
  {
    if s != "" {
      assert s == [s[0]] + s[1..];
      UnescapedIsSame(s[1..]);
    }
  }

  /** Every other character, from the first, is a backslash. */
  ghost predicate AllEscapes(s: string) {
    forall i :: 0 <= i < |s| && i % 2 == 0 ==> s[i] == ESCAPE
  }

  lemma {:induction false} HalfIsEscaped(s: string)
    ensures |Unescaped(s)| >= |s| / 2
  {
    if |s| > 1 && s[0] == ESCAPE {
      HalfIsEscaped(s[2..]);
    } else if s != "" {
      HalfIsEscaped(s[1..]);
    }
  }

  lemma {:induction false} OddIsUnescaped(s: string)
    ensures OddChars(s) == Unescaped(s) <==> AllEscapes(s)
  {
    if |s| > 1 {
      var t := s[2..];
      assert OddChars(s) == [s[1]] + OddChars(t);
      if s[0] == ESCAPE {
        OddIsUnescaped(t);
        assert AllEscapes(t) ==> AllEscapes(s) by {
          forall i | 2 <= i < |s| && i % 2 == 0 && AllEscapes(t)
            ensures s[i] == ESCAPE
          {
            assert t[i - 2] == ESCAPE;
          }
        }
        assert AllEscapes(s) ==> AllEscapes(t);
        assert Unescaped(s)[1..] == Unescaped(t) && OddChars(s)[1..] == OddChars(t);
      } else {
        HalfIsEscaped(s[1..]);
        LongerThanHalf(s);
      }
    }
  }

  lemma LongerThanHalf(s: string)
    requires |s| > 1 && s[0] != ESCAPE
    ensures Unescaped(s) != OddChars(s)
  {
    var t := s[1..];
    assert Unescaped(s)[0] == s[0] && OddChars(s)[0] == s[1] == t[0];
    if s[1] == s[0] {
      HalfIsEscaped(t[1..]);
      assert |Unescaped(s)| == 2 + |Unescaped(t[1..])|;
    }
  }

  /** Whether ProcessEscapes can cope with the escapes in s. */
  ghost predicate Copes(s: string) {
    if s == "" || s[0] != ESCAPE then ESCAPE !in s
    else if |s| == 1 then true
    else if s[1] != ESCAPE then ESCAPE !in s[2..]
    else AllEscapes(s)
  }

  /** ProcessEscapes does what it is for if and only if the only escape is of the first
      character, there is none, or the string is made of escapes that begin with one of a
      backslash. */
  lemma ProcessedIff(s: string)
    ensures Processed(s) == Unescaped(s) <==> Copes(s)
  {
    if s == "" || s[0] != ESCAPE {
      UnescapedIsSame(s);
    } else if |s| > 1 && s[1] != ESCAPE {
      UnescapedIsSame(s[2..]);
      assert s[1..] == [s[1]] + s[2..];
      assert Unescaped(s)[1..] == Unescaped(s[2..]) && s[1..][1..] == s[2..];
    } else if |s| > 1 {
      OddIsUnescaped(s);
    }
  }

  /** A backslash that is not the first character stays where it is, and the character after it is
      not taken for escaped. */
  lemma LaterEscapeStays()
    ensures Processed("a\\b") == "a\\b" && Unescaped("a\\b") == "ab"
  {
    var s := "a\\b";
    assert s[1..] == "\\b" && s[1..][2..] == "";
  }

  // ----- splitting -----

  /** The arguments that are still to come at position k of the string, where the one that is
      being read, if any, began at start, and seen says that it has a character other than a
      space. */
  function ArgumentsFrom(s: string, k: nat, start: nat, escaped: bool, quoted: bool, seen: bool): seq<string>
    requires start <= k <= |s|
    decreases |s| - k
  {
    var here := [Processed(s[start..k])];
    if k == |s| then
      if seen then here else []
    else if escaped then
      ArgumentsFrom(s, k + 1, start, false, quoted, true)
    else if s[k] == QUOTE then
      (if quoted || seen then here else []) + ArgumentsFrom(s, k + 1, k + 1, false, !quoted, false)
    else if quoted then
      ArgumentsFrom(s, k + 1, start, s[k] == ESCAPE, true, seen)
    else if s[k] == ' ' then
      (if seen then here else []) + ArgumentsFrom(s, k + 1, k + 1, false, false, false)
    else
      ArgumentsFrom(s, k + 1, start, s[k] == ESCAPE, false, true)
  }

  function Arguments(s: string): seq<string> {
    ArgumentsFrom(s, 0, 0, false, false, false)
  }

  /** Copies the characters of an argument to a buffer of its own and processes them. */
  method AppendArg(arguments: seq<string>, s: string, start: nat, end: nat) returns (more: seq<string>)
    requires start <= end <= |s| && NUL !in s
    ensures more == arguments + [Processed(s[start..end])]
  {
    var n := end - start;
    var buffer := new char[n + 1](i requires 0 <= i <= n => if i < n then s[start + i] else NUL);
    assert buffer[..n] == s[start..end];
    var length := ProcessEscapes(buffer, n);
    more := arguments + [buffer[..length]];
  }

  method ParseProcessString(s: string) returns (arguments: seq<string>)
    requires NUL !in s
    ensures arguments == Arguments(s)
  {
    hide Processed;
    arguments := [];
    var k, start, escaped, quoted, seen := 0, 0, false, false, false;
    while k < |s|
      invariant start <= k <= |s|
      invariant k == 0 ==> !seen
      invariant arguments + (if 0 < k == |s| then [] else ArgumentsFrom(s, k, start, escaped, quoted, seen))
          == Arguments(s)
    {
      if !escaped {
        if s[k] == ESCAPE {
          escaped := true;
        }
        if s[k] == QUOTE {
          if !quoted {
            quoted := true;
            if seen {
              arguments := AppendArg(arguments, s, start, k);
            }
          } else {
            quoted := false;
            arguments := AppendArg(arguments, s, start, k);
          }
          start, seen := k + 1, false;
        } else if !quoted {
          if s[k] == ' ' {
            if seen {
              arguments := AppendArg(arguments, s, start, k);
            }
            start, seen := k + 1, false;
          } else {
            seen := true;
          }
        }
      } else {
        escaped, seen := false, true;
      }
      k := k + 1;
      assert arguments + ArgumentsFrom(s, k, start, escaped, quoted, seen) == Arguments(s);
      if k == |s| && seen {
        arguments := AppendArg(arguments, s, start, k);
      }
    }
  }

  // ----- what splitting means -----

  /** A character, or one with a backslash before it, or a backslash with nothing after it. */
  datatype Item = Chr(c: char) | Esc(c: char) | Lone

  const SPACE := Chr(' ')
  const MARK := Chr(QUOTE)

  function Items(s: string): seq<Item> {
    if s == "" then []
    else if s[0] != ESCAPE then [Chr(s[0])] + Items(s[1..])
    else if |s| == 1 then [Lone]
    else [Esc(s[1])] + Items(s[2..])
  }

  function RawItem(i: Item): string {
    match i
    case Chr(c) => [c]
    case Esc(c) => [ESCAPE, c]
    case Lone => [ESCAPE]
  }

  /** The text that the items are of. */
  function Raw(items: seq<Item>): string {
    if items == [] then "" else Raw(items[..|items| - 1]) + RawItem(items[|items| - 1])
  }

  /** The number of items before the first d. */
  function Until(items: seq<Item>, d: Item): (n: nat)
    ensures n <= |items|
  {
    if items == [] || items[0] == d then 0 else Until(items[1..], d) + 1
  }

  /** The text of the stretches between spaces that are not empty. */
  function Words(items: seq<Item>): seq<string> {
    if items == [] then []
    else if items[0] == SPACE then Words(items[1..])
    else
      var n := Until(items, SPACE);
      [Processed(Raw(items[..n]))] + Words(items[n..])
  }

  /** The words before the first quote, and what that quote opens.  What is escaped is neither a
      space nor a quote. */
  function Meaning(items: seq<Item>): seq<string>
    decreases |items|
  {
    var q := Until(items, MARK);
    if q == |items| then Words(items) else Words(items[..q]) + AfterOpening(items[q + 1..])
  }

  predicate HasEscape(items: seq<Item>) {
    exists i :: 0 <= i < |items| && items[i].Esc?
  }

  /** What stands before the quote that closes, and what comes after it; if there is none, all is lost
      unless some of it is escaped. */
  function AfterOpening(items: seq<Item>): seq<string>
    decreases |items|
  {
    var e := Until(items, MARK);
    if e < |items| then [Processed(Raw(items[..e]))] + Meaning(items[e + 1..])
    else if HasEscape(items) then [Processed(Raw(items))]
    else []
  }

  lemma {:induction false} UntilFirst(items: seq<Item>, d: Item)
    ensures var n := Until(items, d); d !in items[..n] && (n < |items| ==> items[n] == d)
  {
    if items != [] && items[0] != d {
      UntilFirst(items[1..], d);
      assert items[..Until(items, d)] == [items[0]] + items[1..][..Until(items[1..], d)];
    }
  }

  lemma UntilIs(items: seq<Item>, d: Item, n: nat)
    requires n <= |items| && d !in items[..n] && (n < |items| ==> items[n] == d)
    ensures Until(items, d) == n
  {
    UntilFirst(items, d);
  }

  lemma RawSnoc(items: seq<Item>, i: Item)
    ensures Raw(items + [i]) == Raw(items) + RawItem(i)
  {
    assert (items + [i])[..|items|] == items;
  }

  // ----- splitting by items -----

  /** The arguments still to come before the items, after here has been read of one of them. */
  function Split(items: seq<Item>, here: string, quoted: bool, seen: bool): seq<string> {
    if items == [] then
      if seen then [Processed(here)] else []
    else
      var i, rest := items[0], items[1..];
      if i == MARK then (if quoted || seen then [Processed(here)] else []) + Split(rest, "", !quoted, false)
      else if i == SPACE && !quoted then (if seen then [Processed(here)] else []) + Split(rest, "", false, false)
      else Split(rest, here + RawItem(i), quoted, seen || i.Esc? || !quoted)
  }

  lemma SliceNext(s: string, k: nat, start: nat, n: nat)
    requires start <= k && k + n <= |s|
    ensures s[start..k] + s[k..k + n] == s[start..k + n] && s[k..][n..] == s[k + n..]
  {
  }

  /** Splitting character by character is splitting by items. */
  lemma {:induction false} SplitFrom(s: string, k: nat, start: nat, quoted: bool, seen: bool)
    requires start <= k <= |s|
    ensures ArgumentsFrom(s, k, start, false, quoted, seen) == Split(Items(s[k..]), s[start..k], quoted, seen)
    decreases |s| - k
  {
    hide Processed;
    if k == |s| {
      assert s[k..] == "";
    } else if s[k] != ESCAPE {
      SplitPlain(s, k, start, quoted, seen);
    } else if k + 1 == |s| {
      SplitLone(s, k, start, quoted, seen);
    } else {
      SplitEscaped(s, k, start, quoted, seen);
    }
  }

  lemma SplitLone(s: string, k: nat, start: nat, quoted: bool, seen: bool)
    requires start <= k && k + 1 == |s| && s[k] == ESCAPE
    ensures ArgumentsFrom(s, k, start, false, quoted, seen) == Split(Items(s[k..]), s[start..k], quoted, seen)
  {
    hide Processed;
    assert s[k..] == [ESCAPE] && Items(s[k..]) == [Lone];
    assert [Lone][1..] == [] && s[start..k] + [ESCAPE] == s[start..k + 1];
    assert Split([Lone], s[start..k], quoted, seen) == Split([], s[start..k + 1], quoted, seen || !quoted);
    assert ArgumentsFrom(s, k, start, false, quoted, seen)
        == ArgumentsFrom(s, k + 1, start, true, quoted, seen || !quoted);
  }

  lemma {:induction false} SplitPlain(s: string, k: nat, start: nat, quoted: bool, seen: bool)
    requires start <= k < |s| && s[k] != ESCAPE
    ensures ArgumentsFrom(s, k, start, false, quoted, seen) == Split(Items(s[k..]), s[start..k], quoted, seen)
    decreases |s| - k, 0
  {
    hide Processed;
    SliceNext(s, k, start, 1);
    ItemsAt(s, k);
    assert s[k + 1..k + 1] == "";
    if s[k] == QUOTE {
      SplitFrom(s, k + 1, k + 1, !quoted, false);
    } else if s[k] == ' ' && !quoted {
      SplitFrom(s, k + 1, k + 1, false, false);
    } else {
      assert s[k..k + 1] == [s[k]];
      SplitFrom(s, k + 1, start, quoted, seen || !quoted);
    }
  }

  lemma ItemsAt(s: string, k: nat)
    requires k < |s|
    ensures s[k] != ESCAPE ==> Items(s[k..]) == [Chr(s[k])] + Items(s[k + 1..])
    ensures s[k] == ESCAPE && k + 1 < |s| ==> Items(s[k..]) == [Esc(s[k + 1])] + Items(s[k + 2..])
  {
    assert s[k..][1..] == s[k + 1..];
    if k + 1 < |s| {
      assert s[k..][2..] == s[k + 2..];
    }
  }

  lemma {:induction false} SplitEscaped(s: string, k: nat, start: nat, quoted: bool, seen: bool)
    requires start <= k && k + 1 < |s| && s[k] == ESCAPE
    ensures ArgumentsFrom(s, k, start, false, quoted, seen) == Split(Items(s[k..]), s[start..k], quoted, seen)
    decreases |s| - k, 0
  {
    hide Processed;
    SliceNext(s, k, start, 2);
    ItemsAt(s, k);
    assert s[k..k + 2] == [ESCAPE, s[k + 1]];
    SplitFrom(s, k + 2, start, quoted, true);
    EscapedStep(s, k, start, quoted, seen);
  }

  lemma EscapedStep(s: string, k: nat, start: nat, quoted: bool, seen: bool)
    requires start <= k && k + 1 < |s| && s[k] == ESCAPE
    ensures ArgumentsFrom(s, k, start, false, quoted, seen) == ArgumentsFrom(s, k + 2, start, false, quoted, true)
  {
    hide Processed;
    assert ArgumentsFrom(s, k, start, false, quoted, seen)
        == ArgumentsFrom(s, k + 1, start, true, quoted, if quoted then seen else true);
  }

  // ----- splitting gives what is meant -----

  /** The word that ends, if there is one. */
  function Ended(word: seq<Item>): seq<string> {
    if word == [] then [] else [Processed(Raw(word))]
  }

  /** A word at the start is one of the words. */
  lemma WordFirst(word: seq<Item>, rest: seq<Item>)
    requires SPACE !in word && (rest != [] ==> rest[0] == SPACE)
    ensures Words(word + rest) == Ended(word) + Words(rest)
  {
    var items := word + rest;
    if word == [] {
      assert items == rest;
    } else {
      assert items[..|word|] == word && items[|word|..] == rest;
      UntilIs(items, SPACE, |word|);
    }
  }

  lemma OneWord(word: seq<Item>)
    requires SPACE !in word
    ensures Words(word) == Ended(word)
  {
    WordFirst(word, []);
    assert word + [] == word;
  }

  /** What is to come from item q, which is the end or a quote that opens. */
  function FromMark(items: seq<Item>, q: nat): seq<string>
    requires q <= |items|
  {
    if q == |items| then [] else Split(items[q + 1..], "", true, false)
  }

  lemma FirstItem(items: seq<Item>, q: nat)
    requires 0 < q <= |items|
    ensures items[..q] == [items[0]] + items[1..][..q - 1] && items[1..][q - 1..] == items[q..]
    ensures q < |items| ==> items[1..][q - 1] == items[q] && items[1..][q..] == items[q + 1..]
  {
  }

  lemma Grouped(word: seq<Item>, i: Item, rest: seq<Item>)
    ensures word + ([i] + rest) == word + [i] + rest && [] + rest == rest && word + [] == word
  {
  }

  /** Up to the next quote or the end, splitting gives the words, the first of which has begun. */
  lemma {:induction false} PlainPart(items: seq<Item>, word: seq<Item>, q: nat)
    requires q <= |items| && MARK !in items[..q] && (q < |items| ==> items[q] == MARK) && SPACE !in word
    ensures Split(items, Raw(word), false, word != []) == Words(word + items[..q]) + FromMark(items, q)
    decreases q
  {
    if q == 0 {
      hide Processed, Words;
      OneWord(word);
      assert word + items[..0] == word;
    } else {
      var i, rest := items[0], items[1..];
      FirstItem(items, q);
      PlainStep(items, word, q);
      hide Split, Words, Raw, Ended;
      if i == SPACE {
        PlainPart(rest, [], q - 1);
        AtSpace(word, rest[..q - 1]);
        Grouped(word, SPACE, rest[..q - 1]);
      } else {
        PlainPart(rest, word + [i], q - 1);
        Grouped(word, i, rest[..q - 1]);
      }
    }
  }

  lemma PlainStep(items: seq<Item>, word: seq<Item>, q: nat)
    requires 0 < q <= |items| && MARK !in items[..q]
    ensures var i, rest := items[0], items[1..];
      && MARK !in rest[..q - 1] && FromMark(rest, q - 1) == FromMark(items, q)
      && Split(items, Raw(word), false, word != []) ==
           if i == SPACE then Ended(word) + Split(rest, Raw([]), false, false)
           else Split(rest, Raw(word + [i]), false, true)
  {
    FirstItem(items, q);
    assert items[0] in items[..q];
    RawSnoc(word, items[0]);
    hide Processed, Raw;
    RawNone();
  }

  lemma RawNone()
    ensures Raw([]) == ""
  {
  }

  lemma AtSpace(word: seq<Item>, rest: seq<Item>)
    requires SPACE !in word
    ensures Words(word + ([SPACE] + rest)) == Ended(word) + Words(rest)
  {
    WordFirst(word, [SPACE] + rest);
    assert ([SPACE] + rest)[1..] == rest;
  }

  /** Within quotes, splitting gives the whole stretch up to the closing quote. */
  lemma {:induction false} QuotedPart(items: seq<Item>, word: seq<Item>, e: nat)
    requires e <= |items| && MARK !in items[..e] && (e < |items| ==> items[e] == MARK)
    ensures Split(items, Raw(word), true, HasEscape(word)) ==
      if e < |items| then [Processed(Raw(word + items[..e]))] + Split(items[e + 1..], "", false, false)
      else if HasEscape(word + items) then [Processed(Raw(word + items))] else []
    decreases e
  {
    if e == 0 {
      hide Processed, Raw, HasEscape;
      assert word + items[..0] == word && (items == [] ==> word + items == word);
    } else {
      var i, rest := items[0], items[1..];
      FirstItem(items, e);
      QuotedStep(items, word, e);
      hide Processed, Raw, HasEscape, Split;
      Grouped(word, i, rest[..e - 1]);
      Grouped(word, i, rest);
      assert items == [i] + rest;
      QuotedPart(rest, word + [i], e - 1);
    }
  }

  lemma QuotedStep(items: seq<Item>, word: seq<Item>, e: nat)
    requires 0 < e <= |items| && MARK !in items[..e]
    ensures var i, rest := items[0], items[1..];
      && MARK !in rest[..e - 1]
      && Split(items, Raw(word), true, HasEscape(word)) == Split(rest, Raw(word + [i]), true, HasEscape(word + [i]))
  {
    FirstItem(items, e);
    assert items[0] in items[..e];
    RawSnoc(word, items[0]);
    EscapeSnoc(word, items[0]);
    hide Processed, Raw, HasEscape;
  }

  lemma EscapeSnoc(word: seq<Item>, i: Item)
    ensures HasEscape(word + [i]) <==> HasEscape(word) || i.Esc?
  {
    if k :| 0 <= k < |word| && word[k].Esc? {
      assert (word + [i])[k].Esc?;
    }
    if i.Esc? {
      assert (word + [i])[|word|].Esc?;
    }
    if k :| 0 <= k < |word + [i]| && (word + [i])[k].Esc? {
      assert k < |word| ==> word[k].Esc?;
    }
  }

  lemma {:induction false} SplitMeans(items: seq<Item>)
    ensures Split(items, "", false, false) == Meaning(items)
    decreases |items|, 1
  {
    var q := Until(items, MARK);
    UntilFirst(items, MARK);
    PlainPart(items, [], q);
    assert [] + items[..q] == items[..q];
    hide Words, Split;
    if q < |items| {
      QuotedMeans(items[q + 1..]);
    } else {
      assert items[..q] == items;
    }
  }

  lemma {:induction false} QuotedMeans(items: seq<Item>)
    ensures Split(items, "", true, false) == AfterOpening(items)
    decreases |items|, 0
  {
    var e := Until(items, MARK);
    UntilFirst(items, MARK);
    QuotedPart(items, [], e);
    assert [] + items == items && [] + items[..e] == items[..e];
    if e < |items| {
      SplitMeans(items[e + 1..]);
    }
  }

  /** A string is split into what it means: the words outside quotes and the stretches within, where
      what is escaped ends neither. */
  lemma ArgumentsAreMeaning(s: string)
    ensures Arguments(s) == Meaning(Items(s))
  {
    SplitFrom(s, 0, 0, false, false);
    assert s[0..] == s && s[0..0] == "";
    SplitMeans(Items(s));
  }

  // ----- printing -----

  function Quoted(a: string): string {
    [QUOTE] + a + [QUOTE]
  }

  /** Each argument in quotes, and spaces in between. */
  function Print(arguments: seq<string>): string {
    if arguments == [] then ""
    else if |arguments| == 1 then Quoted(arguments[0])
    else Quoted(arguments[0]) + " " + Print(arguments[1..])
  }

  ghost predicate Printable(arguments: seq<string>) {
    forall a :: a in arguments ==> NUL !in a && QUOTE !in a && ESCAPE !in a
  }

  lemma ItemsCons(c: char, s: string)
    requires c != ESCAPE
    ensures Items([c] + s) == [Chr(c)] + Items(s)
  {
    assert ([c] + s)[1..] == s;
  }

  lemma Assoc(c: char, a: string, s: string)
    ensures [c] + a + s == [c] + (a + s)
  {
  }

  lemma {:induction false} PlainItems(a: string, s: string)
    requires ESCAPE !in a
    ensures Items(a + s) == Items(a) + Items(s) && |Items(a)| == |a|
    ensures forall i :: 0 <= i < |a| ==> Items(a)[i] == Chr(a[i])
  {
    if a == "" {
      assert a + s == s;
    } else {
      var c, rest := a[0], a[1..];
      assert a == [c] + rest;
      hide Items;
      PlainItems(rest, s);
      ItemsCons(c, rest);
      ItemsCons(c, rest + s);
      Assoc(c, rest, s);
    }
  }

  lemma PlainIsRaw(a: string)
    requires ESCAPE !in a
    ensures Processed(Raw(Items(a))) == a
  {
    ItemsRaw(a);
  }

  /** One quoted argument, after at most a space, is the first that is meant. */
  lemma QuotedFirst(gap: string, a: string, rest: string)
    requires (gap == "" || gap == " ") && QUOTE !in a && ESCAPE !in a
    ensures Meaning(Items(gap + Quoted(a) + rest)) == [a] + Meaning(Items(rest))
  {
    QuotedItems(gap, a, rest);
    NoWords(gap);
    PlainItems(gap, "");
    PlainItems(a, "");
    PlainIsRaw(a);
    hide Words, Items, Processed, Raw;
    MarkedFirst(Items(gap), Items(a), Items(rest));
  }

  lemma MarkedFirst(gap: seq<Item>, a: seq<Item>, rest: seq<Item>)
    requires MARK !in gap && MARK !in a
    ensures Meaning(gap + [MARK] + (a + [MARK] + rest)) == Words(gap) + ([Processed(Raw(a))] + Meaning(rest))
  {
    hide Words, Processed, Raw;
    var inner := a + [MARK] + rest;
    var items := gap + [MARK] + inner;
    assert items[..|gap|] == gap && items[|gap| + 1..] == inner;
    UntilIs(items, MARK, |gap|);
    assert inner[..|a|] == a && inner[|a| + 1..] == rest;
    UntilIs(inner, MARK, |a|);
  }

  lemma QuotedItems(gap: string, a: string, rest: string)
    requires (gap == "" || gap == " ") && ESCAPE !in a
    ensures Items(gap + Quoted(a) + rest) == Items(gap) + [MARK] + (Items(a) + [MARK] + Items(rest))
  {
    hide Items;
    var tail := [QUOTE] + rest;
    PlainItems(gap, [QUOTE] + (a + tail));
    ItemsCons(QUOTE, a + tail);
    PlainItems(a, tail);
    ItemsCons(QUOTE, rest);
    assert gap + Quoted(a) + rest == gap + ([QUOTE] + (a + tail));
    Joined(Items(gap), Items(a), Items(rest));
  }

  lemma Joined(gap: seq<Item>, a: seq<Item>, rest: seq<Item>)
    ensures gap + ([MARK] + (a + ([MARK] + rest))) == gap + [MARK] + (a + [MARK] + rest)
  {
  }

  lemma NoWords(gap: string)
    requires gap == "" || gap == " "
    ensures Words(Items(gap)) == []
  {
    if gap == " " {
      assert gap[1..] == "" && Items(gap) == [SPACE];
    }
  }

  lemma MeaningOfNothing()
    ensures Meaning(Items("")) == []
  {
  }

  /** What follows the first argument in what is printed. */
  function AfterFirst(arguments: seq<string>): string
    requires arguments != []
  {
    if |arguments| == 1 then "" else " " + Print(arguments[1..])
  }

  lemma PrintedFirst(arguments: seq<string>)
    requires arguments != []
    ensures Print(arguments) == Quoted(arguments[0]) + AfterFirst(arguments)
  {
  }

  lemma {:induction false} PrintMeans(gap: string, arguments: seq<string>)
    requires Printable(arguments) && (gap == "" || (gap == " " && arguments != []))
    ensures Meaning(Items(gap + Print(arguments))) == arguments
    decreases |arguments|
  {
    if arguments == [] {
      MeaningOfNothing();
      assert gap + Print(arguments) == "";
    } else {
      hide Words, Until, Meaning, Items;
      var a, others := arguments[0], arguments[1..];
      PrintedFirst(arguments);
      QuotedFirst(gap, a, AfterFirst(arguments));
      assert gap + Print(arguments) == gap + Quoted(a) + AfterFirst(arguments);
      if others != [] {
        PrintMeans(" ", others);
      } else {
        MeaningOfNothing();
      }
    }
  }

  lemma {:induction false} PrintIsPlain(arguments: seq<string>)
    requires Printable(arguments)
    ensures NUL !in Print(arguments)
  {
    if |arguments| > 1 {
      PrintIsPlain(arguments[1..]);
    }
  }

  /** Printing arguments and splitting the result gives them back, empty ones too. */
  lemma RoundTrip(arguments: seq<string>)
    requires Printable(arguments)
    ensures NUL !in Print(arguments) && Arguments(Print(arguments)) == arguments
  {
    PrintIsPlain(arguments);
    ArgumentsAreMeaning(Print(arguments));
    PrintMeans("", arguments);
    assert "" + Print(arguments) == Print(arguments);
  }

  /** Text without spaces and quotes, other than escaped ones, is one argument. */
  lemma OneArgument(s: string)
    requires s != "" && s[0] != ESCAPE && SPACE !in Items(s) && MARK !in Items(s)
    ensures Arguments(s) == [s]
  {
    var items := Items(s);
    assert items[..|items|] == items;
    ArgumentsAreMeaning(s);
    ItemsRaw(s);
    hide ArgumentsFrom, Items;
    UntilIs(items, MARK, |items|);
    OneWord(items);
  }

  /** A space after a backslash does not end an argument. */
  lemma EscapedSpaceStays(a: string, b: string)
    requires a != "" && ESCAPE !in a && ' ' !in a && QUOTE !in a && ESCAPE !in b && ' ' !in b && QUOTE !in b
    ensures Arguments(a + "\\ " + b) == [a + "\\ " + b]
  {
    var s, more := a + "\\ " + b, "\\ " + b;
    assert s == a + more && s[0] == a[0];
    EscapedSpace(b, more);
    hide Items, Arguments;
    PlainItems(a, more);
    PlainItems(b, "");
    assert SPACE !in Items(a) && MARK !in Items(a);
    OneArgument(s);
  }

  lemma EscapedSpace(b: string, more: string)
    requires more == "\\ " + b
    ensures Items(more) == [Esc(' ')] + Items(b)
  {
    assert more[2..] == b;
  }

  lemma {:induction false} RawCons(i: Item, items: seq<Item>)
    ensures Raw([i] + items) == RawItem(i) + Raw(items)
  {
    RawNone();
    if items == [] {
      RawSnoc([], i);
      assert [i] + [] == [] + [i];
    } else {
      var front, x := items[..|items| - 1], items[|items| - 1];
      assert items == front + [x] && [i] + items == [i] + front + [x];
      hide Raw, RawItem;
      RawCons(i, front);
      RawSnoc(front, x);
      RawSnoc([i] + front, x);
    }
  }

  /** The items of a string are of just that text. */
  lemma {:induction false} ItemsRaw(s: string)
    ensures Raw(Items(s)) == s
  {
    if s == "" {
    } else if s[0] != ESCAPE {
      ItemsRaw(s[1..]);
      RawCons(Chr(s[0]), Items(s[1..]));
    } else if |s| > 1 {
      ItemsRaw(s[2..]);
      RawCons(Esc(s[1]), Items(s[2..]));
      assert s == [ESCAPE, s[1]] + s[2..];
    } else {
      RawSnoc([], Lone);
      assert [] + [Lone] == [Lone];
    }
  }
}
