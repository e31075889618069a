/** Joining strings and writing numbers, as Python's `str.join` and f-strings do. */
module Text {

  function Join(separator: string, parts: seq<string>): string {
    if parts == [] then ""
    else if |parts| == 1 then parts[0]
    else parts[0] + separator + Join(separator, parts[1..])
  }

  function Digit(d: nat): (c: char)
    requires d < 10
    ensures '0' <= c <= '9' && c as int - '0' as int == d
  {
    '0' + d as char
  }

  predicate AllDigits(text: string) {
    forall i :: 0 <= i < |text| ==> '0' <= text[i] <= '9'
  }

  function Decimal(n: nat): (text: string)
    ensures text != [] && AllDigits(text)
  {
    if n < 10 then [Digit(n)] else Decimal(n / 10) + [Digit(n % 10)]
  }

  function Value(text: string): nat
    requires AllDigits(text)
  {
    if text == [] then 0
    else 10 * Value(text[..|text| - 1]) + (text[|text| - 1] as int - '0' as int)
  }

  /** A number can be read back from the way it is written. */
  lemma {:induction false} DecimalRoundTrip(n: nat)
    ensures Value(Decimal(n)) == n
  {
    if n >= 10 {
      DecimalRoundTrip(n / 10);
      assert Decimal(n)[..|Decimal(n)| - 1] == Decimal(n / 10);
    } else {
      assert Value(Decimal(n)[..0]) == 0;
    }
  }

  ghost predicate Without(c: char, text: string) {
    c !in text
  }

  /** With a separator that neither head contains, the two halves of a text can be told apart. */
  lemma SplitAtFirst(c: char, head: string, tail: string, head': string, tail': string)
    requires Without(c, head) && Without(c, head')
    requires head + [c] + tail == head' + [c] + tail'
    ensures head == head' && tail == tail'
  {
    var text := head + [c] + tail;
    assert text[|head|] == c && text[|head'|] == c;
    assert forall k :: 0 <= k < |head| ==> text[k] == head[k] != c;
    assert forall k :: 0 <= k < |head'| ==> text[k] == head'[k] != c;
    assert head == text[..|head|] && head' == text[..|head'|];
    assert tail == text[|head| + 1..] && tail' == text[|head'| + 1..];
  }

  /** The same from the other end. */
  lemma SplitAtLast(c: char, head: string, tail: string, head': string, tail': string)
    requires Without(c, tail) && Without(c, tail')
    requires head + [c] + tail == head' + [c] + tail'
    ensures head == head' && tail == tail'
  {
    var text := head + [c] + tail;
    assert text[|head|] == c && text[|head'|] == c;
    assert forall k :: |head| < k < |text| ==> text[k] == tail[k - |head| - 1] != c;
    assert forall k :: |head'| < k < |text| ==> text[k] == tail'[k - |head'| - 1] != c;
    assert head == text[..|head|] && head' == text[..|head'|];
    assert tail == text[|head| + 1..] && tail' == text[|head'| + 1..];
  }

  // str.split with a one-character separator.
  function Split(c: char, text: string): (parts: seq<string>)
    ensures parts != []
  {
    if text == "" then [""]
    else
      var rest := Split(c, text[1..]);
      if text[0] == c then [""] + rest else [[text[0]] + rest[0]] + rest[1..]
  }

  lemma {:induction false} SplitWithout(c: char, text: string)
    requires Without(c, text)
    ensures Split(c, text) == [text]
  {
    if text != "" {
      SplitWithout(c, text[1..]);
      assert text == [text[0]] + text[1..];
    }
  }

  lemma {:induction false} SplitAfter(c: char, head: string, tail: string)
    requires Without(c, head)
    ensures Split(c, head + [c] + tail) == [head] + Split(c, tail)
  {
    var text := head + [c] + tail;
    if head == "" {
      assert text[1..] == tail;
    } else {
      assert text[1..] == head[1..] + [c] + tail;
      SplitAfter(c, head[1..], tail);
      assert head == [head[0]] + head[1..];
    }
  }

  /** Splitting undoes joining when no part contains the separator. */
  lemma {:induction false} SplitOfJoin(c: char, parts: seq<string>)
    requires parts != [] && forall part :: part in parts ==> Without(c, part)
    ensures Split(c, Join([c], parts)) == parts
    decreases |parts|
  {
    assert parts[0] in parts;
    if |parts| == 1 {
      SplitWithout(c, parts[0]);
    } else {
      SplitOfJoin(c, parts[1..]);
      SplitAfter(c, parts[0], Join([c], parts[1..]));
    }
  }

  /** Joining undoes splitting. */
  lemma {:induction false} JoinOfSplit(c: char, text: string)
    ensures Join([c], Split(c, text)) == text
  {
    if text != "" {
      JoinOfSplit(c, text[1..]);
      var rest := Split(c, text[1..]);
      assert text == [text[0]] + text[1..];
      if text[0] != c {
        if |rest| > 1 {
          assert ([[text[0]] + rest[0]] + rest[1..])[1..] == rest[1..];
        }
      } else {
        assert ([""] + rest)[1..] == rest;
      }
    }
  }

  // str.isspace: the white space of Unicode.
  predicate IsSpace(c: char) {
    var code := c as int;
    || 9 <= code <= 13 || 28 <= code <= 32 || code == 0x85 || code == 0xA0 || code == 0x1680 || 0x2000 <= code <= 0x200A
    || code == 0x2028 || code == 0x2029 || code == 0x202F || code == 0x205F || code == 0x3000
  }

  predicate IsWord(word: string) {
    word != "" && forall i :: 0 <= i < |word| ==> !IsSpace(word[i])
  }

  // The longest beginning without white space.
  function FirstWord(text: string): (word: string)
    ensures word <= text && (forall i :: 0 <= i < |word| ==> !IsSpace(word[i]))
    ensures text != "" && !IsSpace(text[0]) ==> word != ""
    ensures |word| < |text| ==> IsSpace(text[|word|])
  {
    if text == "" || IsSpace(text[0]) then "" else [text[0]] + FirstWord(text[1..])
  }

  // str.split without a separator.
  function Words(text: string): (words: seq<string>)
    ensures forall word :: word in words ==> IsWord(word)
    decreases |text|
  {
    if text == "" then []
    else if IsSpace(text[0]) then Words(text[1..])
    else [FirstWord(text)] + Words(text[|FirstWord(text)|..])
  }

  lemma {:induction false} FirstWordBefore(word: string, rest: string)
    requires forall i :: 0 <= i < |word| ==> !IsSpace(word[i])
    requires rest == "" || IsSpace(rest[0])
    ensures FirstWord(word + rest) == word
  {
    if word == "" {
      assert word + rest == rest;
    } else {
      assert (word + rest)[1..] == word[1..] + rest;
      FirstWordBefore(word[1..], rest);
      assert word == [word[0]] + word[1..];
    }
  }

  lemma {:induction false} WordsAfterWord(word: string, rest: string)
    requires IsWord(word) && (rest == "" || IsSpace(rest[0]))
    ensures Words(word + rest) == [word] + Words(rest)
  {
    FirstWordBefore(word, rest);
    assert (word + rest)[|word|..] == rest;
  }

  /** White space separates words, whatever stands before and after it. */
  lemma {:induction false} WordsAround(head: string, space: char, tail: string)
    requires IsSpace(space)
    ensures Words(head + [space] + tail) == Words(head) + Words(tail)
    decreases |head|
  {
    var text := head + [space] + tail;
    if head == "" {
      assert text[1..] == tail;
    } else if IsSpace(head[0]) {
      assert text[1..] == head[1..] + [space] + tail;
      WordsAround(head[1..], space, tail);
    } else {
      var word := FirstWord(head);
      var rest := head[|word|..];
      assert head == word + rest;
      assert text == word + (rest + [space] + tail);
      WordsAfterWord(word, rest);
      WordsAfterWord(word, rest + [space] + tail);
      WordsAround(rest, space, tail);
    }
  }

  lemma {:induction false} WordsOfWord(word: string)
    requires IsWord(word)
    ensures Words(word) == [word]
  {
    WordsAfterWord(word, "");
    assert word + "" == word;
  }

  /** Splitting undoes joining words by single spaces. */
  lemma {:induction false} WordsOfJoin(words: seq<string>)
    requires forall word :: word in words ==> IsWord(word)
    ensures Words(Join(" ", words)) == words
    decreases |words|
  {
    if words != [] {
      assert words[0] in words;
      WordsOfWord(words[0]);
      if |words| > 1 {
        WordsOfJoin(words[1..]);
        WordsAround(words[0], ' ', Join(" ", words[1..]));
        assert words[0] + " " + Join(" ", words[1..]) == words[0] + [' '] + Join(" ", words[1..]);
      }
    }
  }

  function Concat<T>(lists: seq<seq<T>>): seq<T> {
    if lists == [] then [] else lists[0] + Concat(lists[1..])
  }

  /** The words of lines that are joined by any white space are the words of the lines. */
  lemma {:induction false} WordsOfLines(space: char, lines: seq<string>)
    requires IsSpace(space)
    ensures Words(Join([space], lines)) == Concat(seq(|lines|, i requires 0 <= i < |lines| => Words(lines[i])))
    decreases |lines|
  {
    if lines != [] {
      var all := seq(|lines|, i requires 0 <= i < |lines| => Words(lines[i]));
      var rest := lines[1..];
      assert all[1..] == seq(|rest|, i requires 0 <= i < |rest| => Words(rest[i]));
      WordsOfLines(space, rest);
      if |lines| == 1 {
        assert Concat(all[1..]) == [];
        assert all[0] + [] == all[0];
      } else {
        WordsAround(lines[0], space, Join([space], rest));
      }
    }
  }

  // str.strip: without the white space at both ends.
  function Strip(text: string): (stripped: string)
    ensures stripped == "" || (!IsSpace(stripped[0]) && !IsSpace(stripped[|stripped| - 1]))
    decreases |text|
  {
    if text == "" then ""
    else if IsSpace(text[0]) then Strip(text[1..])
    else if IsSpace(text[|text| - 1]) then Strip(text[..|text| - 1])
    else text
  }

  // A line is blank when nothing is left of it.
  lemma {:induction false} BlankHasNoWords(text: string)
    ensures Strip(text) == "" <==> Words(text) == []
    decreases |text|
  {
    if text != "" {
      if IsSpace(text[0]) {
        BlankHasNoWords(text[1..]);
      } else if IsSpace(text[|text| - 1]) {
        var init := text[..|text| - 1];
        BlankHasNoWords(init);
        WordsAround(init, text[|text| - 1], "");
        assert text == init + [text[|text| - 1]] + "";
      }
    }
  }
}
