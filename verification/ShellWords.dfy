// The shell words of a command line: how the server splits one and how it quotes a word.
module ShellWords {
  import opened Text

  const DOUBLE: char := '\"'
  const SINGLE: char := '\''
  const BACKSLASH: char := '\\'

  // --------------------------------------------------------------- reading

  // In double quotes a backslash escapes a double quote or a backslash, nothing else.
  predicate IsEscape(text: string, i: nat) {
    i + 1 < |text| && text[i] == BACKSLASH && (text[i + 1] == DOUBLE || text[i + 1] == BACKSLASH)
  }

  // Index of the first `quote` in `text` from `i` on that is not part of an escape.
  function Closing(text: string, quote: char, i: nat): (r: Option<nat>)
    ensures r.Some? ==> i <= r.value < |text| && text[r.value] == quote
    decreases |text| - i
  {
    if i >= |text| then None
    else if quote == DOUBLE && IsEscape(text, i) then Closing(text, quote, i + 2)
    else if text[i] == quote then Some(i)
    else Closing(text, quote, i + 1)
  }

  method ClosingQuote(text: string, start: nat) returns (end: Option<nat>)
    requires start < |text|
    ensures end == Closing(text, text[start], start + 1)
  {
    var quote := text[start];
    var i := start + 1;
    while i < |text|
      invariant Closing(text, quote, start + 1) == Closing(text, quote, i)
    {
      if quote == DOUBLE && IsEscape(text, i) {
        i := i + 1;
      } else if text[i] == quote {
        return Some(i);
      }
      i := i + 1;
    }
    return None;
  }

  // The content of double quotes with its escapes resolved.
  function Unescape(inner: string): string {
    if inner == "" then ""
    else if IsEscape(inner, 0) then [inner[1]] + Unescape(inner[2..])
    else [inner[0]] + Unescape(inner[1..])
  }

  function Inner(text: string, end: nat): string
    requires 0 < end < |text|
  {
    if text[0] == DOUBLE then Unescape(text[1..end]) else text[1..end]
  }

  function QuoteEnd(text: string): (r: Option<nat>)
    requires text != ""
    ensures r.Some? ==> 0 < r.value < |text|
  {
    if text[0] == DOUBLE || text[0] == SINGLE then Closing(text, text[0], 1) else None
  }

  // The words of `text` when a word `current` has been begun (`inWord`) or not.
  function Words(text: string, current: string, inWord: bool): seq<string> {
    if text == "" then
      if inWord then [current] else []
    else if text[0] == BACKSLASH && |text| > 1 then
      Words(text[2..], current + [text[1]], true)
    else if QuoteEnd(text).Some? then
      var end := QuoteEnd(text).value;
      Words(text[end + 1..], current + Inner(text, end), true)
    else if IsSpace(text[0]) then
      (if inWord then [current] else []) + Words(text[1..], "", false)
    else
      Words(text[1..], current + [text[0]], true)
  }

  lemma ClosingInSuffix(text: string, quote: char, from: nat, i: nat)
    requires from <= |text|
    ensures Closing(text[from..], quote, i).Some? <==> Closing(text, quote, from + i).Some?
    ensures Closing(text, quote, from + i).Some? ==>
              Closing(text, quote, from + i).value == from + Closing(text[from..], quote, i).value
    decreases |text| - i
  {
    if from + i < |text| {
      ClosingInSuffix(text, quote, from, i + 1);
      if i + 2 <= |text| { ClosingInSuffix(text, quote, from, i + 2); }
    }
  }

  function QuoteEndAt(text: string, i: nat): (r: Option<nat>)
    requires i < |text|
    ensures r.Some? ==> i < r.value < |text|
  {
    if text[i] == DOUBLE || text[i] == SINGLE then Closing(text, text[i], i + 1) else None
  }

  lemma QuoteEndHere(text: string, i: nat)
    requires i < |text|
    ensures QuoteEnd(text[i..]) == if QuoteEndAt(text, i).Some? then Some(QuoteEndAt(text, i).value - i) else None
  {
    if text[i] == DOUBLE || text[i] == SINGLE {
      ClosingInSuffix(text, text[i], i, 1);
    }
  }

  // The same step of Words, read by position in the whole text.
  lemma WordsAt(text: string, i: nat, current: string, inWord: bool)
    requires i < |text|
    ensures Words(text[i..], current, inWord) ==
            if text[i] == BACKSLASH && i + 1 < |text| then
              Words(text[i + 2..], current + [text[i + 1]], true)
            else if QuoteEndAt(text, i).Some? then
              var end := QuoteEndAt(text, i).value;
              var inner := text[i + 1..end];
              Words(text[end + 1..], current + if text[i] == DOUBLE then Unescape(inner) else inner, true)
            else if IsSpace(text[i]) then
              (if inWord then [current] else []) + Words(text[i + 1..], "", false)
            else
              Words(text[i + 1..], current + [text[i]], true)
  {
    var rest := text[i..];
    QuoteEndHere(text, i);
    assert rest[0] == text[i] && rest[1..] == text[i + 1..];
    if text[i] == BACKSLASH && i + 1 < |text| {
      assert rest[2..] == text[i + 2..] && rest[1] == text[i + 1];
    } else if QuoteEndAt(text, i).Some? {
      var end := QuoteEndAt(text, i).value;
      assert rest[end - i + 1..] == text[end + 1..];
      assert rest[1..end - i] == text[i + 1..end];
    }
  }

  method SplitShellWords(text: string) returns (words: seq<string>)
    ensures words == Words(text, "", false)
  {
    words := [];
    var current, inWord, i := "", false, 0;
    ghost var left := Words(text, "", false);
    while i < |text|
      invariant 0 <= i <= |text|
      invariant left == Words(text[i..], current, inWord)
      invariant words + left == Words(text, "", false)
    {
      WordsAt(text, i, current, inWord);
      var ch := text[i];
      if ch == BACKSLASH && i + 1 < |text| {
        i := i + 1;
        current := current + [text[i]];
        inWord := true;
        i := i + 1;
        continue;
      }
      var end := None;
      if ch == DOUBLE || ch == SINGLE {
        end := ClosingQuote(text, i);
      }
      if end.Some? {
        var inner := text[i + 1..end.value];
        current := current + if ch == DOUBLE then Unescape(inner) else inner;
        inWord := true;
        i := end.value;
      } else if IsSpace(ch) {
        if inWord {
          ConcatAssociative(words, [current], left[1..]);
          left := left[1..];
          words := words + [current];
        }
        current := "";
        inWord := false;
      } else {
        current := current + [ch];
        inWord := true;
      }
      i := i + 1;
    }
    if inWord {
      words := words + [current];
    }
  }

  // --------------------------------------------------------------- writing

  predicate IsSpecial(c: char) {
    IsSpace(c) || c in "\"'\\=|&;<>()$`*?#~"
  }

  // A word that needs no quotes.
  predicate IsBare(word: string) {
    word != "" && word[0] != '-' && forall i | 0 <= i < |word| :: !IsSpecial(word[i])
  }

  // A backslash before every character of `chars` in `s`.
  function Escape(s: string, chars: string): string {
    if s == "" then ""
    else (if s[0] in chars then [BACKSLASH, s[0]] else [s[0]]) + Escape(s[1..], chars)
  }

  function QuoteShellWord(word: string): string {
    if IsBare(word) then word
    else if DOUBLE !in word then [DOUBLE] + Escape(word, "\\") + [DOUBLE]
    else if SINGLE !in word then [SINGLE] + word + [SINGLE]
    else [DOUBLE] + Escape(word, "\\\"") + [DOUBLE]
  }

  // ------------------------------------------------- reading undoes writing

  // Characters that stand for themselves anywhere in a command line.
  predicate Plain(s: string) {
    forall i | 0 <= i < |s| :: !IsSpace(s[i]) && s[i] != DOUBLE && s[i] != SINGLE && s[i] != BACKSLASH
  }

  lemma {:induction false} PlainText(s: string, rest: string, current: string, inWord: bool)
    requires Plain(s)
    ensures Words(s + rest, current, inWord) == Words(rest, current + s, inWord || s != "")
  {
    if s == "" {
      assert s + rest == rest && current + s == current;
    } else {
      var text := s + rest;
      assert text[1..] == s[1..] + rest;
      assert current + [s[0]] + s[1..] == current + s;
      PlainText(s[1..], rest, current + [s[0]], true);
    }
  }

  lemma {:induction false} EscapeWithoutDouble(word: string)
    requires DOUBLE !in word
    ensures Escape(word, "\\") == Escape(word, "\\\"")
  {
    if word != "" {
      EscapeWithoutDouble(word[1..]);
    }
  }

  lemma {:induction false} UnescapeEscape(word: string)
    ensures Unescape(Escape(word, "\\\"")) == word
  {
    if word != "" {
      UnescapeEscape(word[1..]);
      var e := Escape(word, "\\\"");
      if word[0] in "\\\"" {
        assert e[2..] == Escape(word[1..], "\\\"");
      } else {
        assert e[1..] == Escape(word[1..], "\\\"");
      }
    }
  }

  // Wherever it stands, escaped text ends at the double quote that follows it.
  lemma {:induction false} ClosingAfterEscape(before: string, word: string, rest: string)
    ensures var text := before + Escape(word, "\\\"") + [DOUBLE] + rest;
            Closing(text, DOUBLE, |before|) == Some(|before| + |Escape(word, "\\\"")|)
    decreases |word|
  {
    var e := Escape(word, "\\\"");
    var text := before + e + [DOUBLE] + rest;
    if word != "" {
      var head := if word[0] in "\\\"" then [BACKSLASH, word[0]] else [word[0]];
      assert text == (before + head) + Escape(word[1..], "\\\"") + [DOUBLE] + rest;
      ClosingAfterEscape(before + head, word[1..], rest);
      assert text[|before|] == head[0];
      if |head| == 2 {
        assert text[|before| + 1] == head[1];
        assert IsEscape(text, |before|);
      }
    }
  }

  lemma {:induction false} ClosingSingle(text: string, i: nat, end: nat)
    requires i <= end < |text| && text[end] == SINGLE
    requires forall k | i <= k < end :: text[k] != SINGLE
    ensures Closing(text, SINGLE, i) == Some(end)
    decreases end - i
  {
    if i < end {
      ClosingSingle(text, i + 1, end);
    }
  }

  // Text in quotes reads as what the quotes hold.
  lemma QuotedText(quote: char, inner: string, rest: string, current: string, inWord: bool)
    requires quote == DOUBLE || quote == SINGLE
    requires Closing([quote] + inner + [quote] + rest, quote, 1) == Some(|inner| + 1)
    ensures var text := [quote] + inner + [quote] + rest;
            Words(text, current, inWord) == Words(rest, current + if quote == DOUBLE then Unescape(inner) else inner, true)
  {
    var text := [quote] + inner + [quote] + rest;
    assert text[0] == quote && quote != BACKSLASH;
    assert QuoteEnd(text) == Some(|inner| + 1);
    assert text[1..|inner| + 1] == inner;
    assert text[|inner| + 2..] == rest;
    assert |inner| + 1 + 1 == |inner| + 2;
  }

  lemma DoubleQuoted(word: string, rest: string, current: string, inWord: bool)
    ensures Words([DOUBLE] + Escape(word, "\\\"") + [DOUBLE] + rest, current, inWord) == Words(rest, current + word, true)
  {
    ClosingAfterEscape([DOUBLE], word, rest);
    UnescapeEscape(word);
    QuotedText(DOUBLE, Escape(word, "\\\""), rest, current, inWord);
  }

  lemma SingleQuoted(word: string, rest: string, current: string, inWord: bool)
    requires SINGLE !in word
    ensures Words([SINGLE] + word + [SINGLE] + rest, current, inWord) == Words(rest, current + word, true)
  {
    ClosingSingle([SINGLE] + word + [SINGLE] + rest, 1, |word| + 1);
    QuotedText(SINGLE, word, rest, current, inWord);
  }

  // A quoted word reads back as itself, whatever precedes and follows it.
  lemma QuotedWord(word: string, rest: string, current: string, inWord: bool)
    ensures Words(QuoteShellWord(word) + rest, current, inWord) == Words(rest, current + word, true)
  {
    if IsBare(word) {
      PlainText(word, rest, current, inWord);
    } else if DOUBLE in word && SINGLE !in word {
      SingleQuoted(word, rest, current, inWord);
    } else {
      if DOUBLE !in word { EscapeWithoutDouble(word); }
      DoubleQuoted(word, rest, current, inWord);
    }
  }

  function CommandLine(words: seq<string>): string {
    JoinWith(seq(|words|, i requires 0 <= i < |words| => QuoteShellWord(words[i])), " ")
  }

  lemma CommandLineUnfold(words: seq<string>)
    requires words != []
    ensures CommandLine(words) ==
            if |words| == 1 then QuoteShellWord(words[0]) else QuoteShellWord(words[0]) + " " + CommandLine(words[1..])
  {
    var all := seq(|words|, i requires 0 <= i < |words| => QuoteShellWord(words[i]));
    var rest := words[1..];
    assert all[1..] == seq(|rest|, i requires 0 <= i < |rest| => QuoteShellWord(rest[i]));
  }

  lemma QuotedFirst(word: string, rest: string)
    ensures Words(QuoteShellWord(word), "", false) == [word]
    ensures Words(QuoteShellWord(word) + " " + rest, "", false) == [word] + Words(rest, "", false)
  {
    assert "" + word == word;
    QuotedWord(word, "", "", false);
    assert QuoteShellWord(word) + "" == QuoteShellWord(word);
    QuotedWord(word, " " + rest, "", false);
    assert QuoteShellWord(word) + " " + rest == QuoteShellWord(word) + (" " + rest);
    assert (" " + rest)[1..] == rest;
  }

  // --------------------------------------------------- what else a text may hold

  function EachEscaped(s: string): string {
    if s == "" then "" else [BACKSLASH, s[0]] + EachEscaped(s[1..])
  }

  // Outside quotes a backslash makes the next character part of the word, whatever it is.
  lemma {:induction false} BackslashTakesAny(word: string, rest: string, current: string, inWord: bool)
    requires word != ""
    ensures Words(EachEscaped(word) + rest, current, inWord) == Words(rest, current + word, true)
  {
    var text, left := EachEscaped(word) + rest, EachEscaped(word[1..]) + rest;
    assert text[0] == BACKSLASH && text[1] == word[0] && text[2..] == left;
    assert current + [word[0]] + word[1..] == current + word;
    if |word| > 1 {
      BackslashTakesAny(word[1..], rest, current + [word[0]], true);
    } else {
      assert left == rest && current + [word[0]] == current + word;
    }
  }

  // The last character of a text has nothing to escape.
  lemma LoneBackslashIsText(current: string, inWord: bool)
    ensures Words([BACKSLASH], current, inWord) == [current + [BACKSLASH]]
  {
    assert [BACKSLASH][1..] == "";
  }

  // Any number of blanks, of any kind, separates words, and those in front make none.
  lemma {:induction false} BlanksSeparate(blanks: string, rest: string, current: string)
    requires blanks != "" && forall i | 0 <= i < |blanks| :: IsSpace(blanks[i])
    ensures Words(blanks + rest, current, true) == [current] + Words(rest, "", false)
    ensures Words(blanks + rest, "", false) == Words(rest, "", false)
  {
    var text := blanks + rest;
    assert text[1..] == blanks[1..] + rest && IsSpace(text[0]) && QuoteEnd(text) == None;
    if |blanks| > 1 {
      BlanksSeparate(blanks[1..], rest, current);
    } else {
      assert blanks[1..] + rest == rest;
    }
  }

  // In double quotes a backslash before anything but a backslash or a double quote stands for itself.
  lemma {:induction false} OtherBackslashesStay(inner: string)
    requires forall i | 0 <= i && i + 1 < |inner| && inner[i] == BACKSLASH :: inner[i + 1] != BACKSLASH && inner[i + 1] != DOUBLE
    ensures Unescape(inner) == inner
  {
    if inner != "" {
      OtherBackslashesStay(inner[1..]);
      assert [inner[0]] + inner[1..] == inner;
    }
  }

  lemma {:induction false} ClosingDouble(text: string, i: nat, end: nat)
    requires i <= end < |text| && text[end] == DOUBLE && forall k | i <= k < end :: text[k] != DOUBLE
    requires forall k | i <= k < end && text[k] == BACKSLASH :: text[k + 1] != BACKSLASH && text[k + 1] != DOUBLE
    ensures Closing(text, DOUBLE, i) == Some(end)
    decreases end - i
  {
    if i < end {
      ClosingDouble(text, i + 1, end);
    }
  }

  lemma DoubleQuotesKeep(inner: string, rest: string, current: string, inWord: bool)
    requires DOUBLE !in inner && (inner != "" ==> inner[|inner| - 1] != BACKSLASH)
    requires forall i | 0 <= i && i + 1 < |inner| && inner[i] == BACKSLASH :: inner[i + 1] != BACKSLASH
    ensures Words([DOUBLE] + inner + [DOUBLE] + rest, current, inWord) == Words(rest, current + inner, true)
  {
    var text := [DOUBLE] + inner + [DOUBLE] + rest;
    forall k | 1 <= k <= |inner| ensures text[k] == inner[k - 1] {
    }
    ClosingDouble(text, 1, |inner| + 1);
    OtherBackslashesStay(inner);
    QuotedText(DOUBLE, inner, rest, current, inWord);
  }

  // A word is left as it is exactly when it is not empty, begins with no hyphen and holds no blank and no character
  // that means something to a shell.
  lemma QuotedOnlyWhenNeeded(word: string)
    ensures QuoteShellWord(word) == word
       <==> word != "" && word[0] != '-' && forall i | 0 <= i < |word| :: !IsSpace(word[i]) && word[i] !in "\"'\\=|&;<>()$`*?#~"
  {
    EscapeIsLonger(word, "\\");
    EscapeIsLonger(word, "\\\"");
  }

  lemma {:induction false} EscapeIsLonger(s: string, chars: string)
    ensures |Escape(s, chars)| >= |s|
  {
    if s != "" {
      EscapeIsLonger(s[1..], chars);
    }
  }

  // Splitting the command line of any list of words gives that list back.
  lemma {:induction false} SplitUndoesQuoting(words: seq<string>)
    ensures Words(CommandLine(words), "", false) == words
  {
    if words != [] {
      CommandLineUnfold(words);
      QuotedFirst(words[0], CommandLine(words[1..]));
      if |words| > 1 {
        SplitUndoesQuoting(words[1..]);
      }
    }
  }

  // Hence no two words are written alike.
  lemma QuotingIsInjective(a: string, b: string)
    requires QuoteShellWord(a) == QuoteShellWord(b)
    ensures a == b
  {
    QuotedWord(a, "", "", false);
    QuotedWord(b, "", "", false);
    assert "" + a == a && "" + b == b;
  }

  // A quote without a closing one is text: with no blank and no backslash the text is one word, itself.
  lemma {:induction false} LoneQuotesAreText(text: string, current: string)
    requires forall i | 0 <= i < |text| :: !IsSpace(text[i]) && text[i] != BACKSLASH
    requires multiset(text)[DOUBLE] <= 1 && multiset(text)[SINGLE] <= 1
    ensures Words(text, current, true) == [current + text]
  {
    if text == "" {
      assert current + text == current;
    } else {
      assert text == [text[0]] + text[1..];
      assert current + [text[0]] + text[1..] == current + text;
      LoneQuotesAreText(text[1..], current + [text[0]]);
    }
  }
}
