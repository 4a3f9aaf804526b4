/** Shell quoting in the sandbox worker (apps/sandbox-worker/src/index.ts), against
    the word splitting of sections 2.2.1 and 2.2.2 of the POSIX.1-2017 Shell Command
    Language. */
module ShellQuote {
  import opened Wrappers

  /** `value.replaceAll("'", "'\\''")` */
  function ReplaceQuotes(value: string): string {
    if value == [] then []
    else (if value[0] == '\'' then "'\\''" else [value[0]]) + ReplaceQuotes(value[1..])
  }

  function Quoted(value: string): string {
    "'" + ReplaceQuotes(value) + "'"
  }

  // ----- the shell's side

  /** Between words, inside one, or inside its single quotes. */
  datatype Mode = Between | Bare | InQuotes

  /** Characters that outside quotes may do something other than stand for
      themselves: operators, command separators, expansions, patterns, double quotes,
      comments. The reader below gives up on them. */
  predicate Special(c: char) {
    c in "|&;<>()$`\"*?[#~{}!\n"
  }

  predicate Blank(c: char) {
    c in " \t"
  }

  /** Splits `text` into words, having read `words` and, of the current word, `word`.
      None: unbalanced quotes, or characters it gives up on. */
  function Split(text: string, mode: Mode, word: string, words: seq<string>): Option<seq<string>>
    decreases |text|
  {
    if text == [] then
      match mode
      case Between => Some(words)
      case Bare => Some(words + [word])
      case InQuotes => None
    else
      var c, rest := text[0], text[1..];
      if mode.InQuotes? then
        if c == '\'' then Split(rest, Bare, word, words) else Split(rest, InQuotes, word + [c], words)
      else if c == '\'' then Split(rest, InQuotes, word, words)
      else if c == '\\' then
        if rest == [] then None
        else if rest[0] == '\n' then Split(rest[1..], mode, word, words)
        else Split(rest[1..], Bare, word + [rest[0]], words)
      else if Blank(c) then
        Split(rest, Between, [], if mode.Bare? then words + [word] else words)
      else if Special(c) then None
      else Split(rest, Bare, word + [c], words)
  }

  function Words(text: string): Option<seq<string>> {
    Split(text, Between, [], [])
  }

  // ----- the round trip

  /** The inside of a quotation adds exactly the value to the current word. */
  lemma {:induction false} InsideAdds(value: string, rest: string, word: string, words: seq<string>)
    ensures Split(ReplaceQuotes(value) + rest, InQuotes, word, words) == Split(rest, InQuotes, word + value, words)
  {
    if value == [] {
      assert ReplaceQuotes(value) + rest == rest && word + value == word;
    } else {
      var inner := ReplaceQuotes(value[1..]) + rest;
      assert word + value == word + [value[0]] + value[1..];
      InsideAdds(value[1..], rest, word + [value[0]], words);
      if value[0] == '\'' {
        assert ReplaceQuotes(value) + rest == ['\'', '\\', '\'', '\''] + inner;
        EscapedQuote(inner, word, words);
      } else {
        var text := ReplaceQuotes(value) + rest;
        assert text == [value[0]] + inner;
        assert text[1..] == inner;
      }
    }
  }

  /** Close, escaped quote, reopen: one quote more in the word. */
  lemma EscapedQuote(inner: string, word: string, words: seq<string>)
    ensures Split(['\'', '\\', '\'', '\''] + inner, InQuotes, word, words)
        == Split(inner, InQuotes, word + ['\''], words)
  {
    var t1, t2 := ['\\', '\'', '\''] + inner, ['\''] + inner;
    assert (['\'', '\\', '\'', '\''] + inner)[1..] == t1;
    assert t1[1..] == ['\'', '\''] + inner;
    assert t1[1..][1..] == t2;
    assert t2[1..] == inner;
    assert Split(t1, Bare, word, words) == Split(t2, Bare, word + ['\''], words);
    assert Split(t2, Bare, word + ['\''], words) == Split(inner, InQuotes, word + ['\''], words);
  }

  /** Anywhere outside quotes, a quoted value continues or starts a word with exactly
      the value, whatever its characters. */
  lemma QuotedAddsToWord(value: string, rest: string, mode: Mode, word: string, words: seq<string>)
    requires !mode.InQuotes?
    ensures Split(Quoted(value) + rest, mode, word, words) == Split(rest, Bare, word + value, words)
  {
    var tail := "'" + rest;
    assert Quoted(value) + rest == ['\''] + (ReplaceQuotes(value) + tail);
    InsideAdds(value, tail, word, words);
    assert tail[1..] == rest;
  }

  /** Quoting round trip: the quoted text is exactly one word, and that word is the value. */
  lemma QuotingRoundTrip(value: string)
    ensures Words(Quoted(value)) == Some([value])
  {
    QuotedAddsToWord(value, [], Between, [], []);
    assert Quoted(value) + [] == Quoted(value);
    var none: seq<string> := [];
    assert "" + value == value && none + [value] == [value];
  }

  // ----- in a command

  /** Text that reads as complete words does so in front of a space too; what
      follows is read afresh behind those words. */
  lemma {:induction false} SplitAfterSpace(front: string, rest: string, mode: Mode, word: string, words: seq<string>)
    requires Split(front, mode, word, words).Some?
    ensures Split(front + " " + rest, mode, word, words)
        == Split(rest, Between, [], Split(front, mode, word, words).value)
    decreases |front|
  {
    var text := front + " " + rest;
    if front == [] {
      assert text == [' '] + rest;
      assert text[1..] == rest;
    } else {
      var c, f1 := front[0], front[1..];
      assert text[0] == c && text[1..] == f1 + " " + rest;
      if mode.InQuotes? {
        if c == '\'' {
          SplitAfterSpace(f1, rest, Bare, word, words);
        } else {
          SplitAfterSpace(f1, rest, InQuotes, word + [c], words);
        }
      } else if c == '\'' {
        SplitAfterSpace(f1, rest, InQuotes, word, words);
      } else if c == '\\' {
        var f2 := f1[1..];
        assert text[1..][0] == f1[0] && text[1..][1..] == f2 + " " + rest;
        if f1[0] == '\n' {
          SplitAfterSpace(f2, rest, mode, word, words);
        } else {
          SplitAfterSpace(f2, rest, Bare, word + [f1[0]], words);
        }
      } else if Blank(c) {
        SplitAfterSpace(f1, rest, Between, [], if mode.Bare? then words + [word] else words);
      } else {
        SplitAfterSpace(f1, rest, Bare, word + [c], words);
      }
    }
  }

  function Behind(words: seq<string>, later: Option<seq<string>>): Option<seq<string>> {
    if later.Some? then Some(words + later.value) else None
  }

  /** The words read so far only stand in front. */
  lemma {:induction false} EarlierWordsStay(text: string, mode: Mode, word: string, first: seq<string>,
                                            words: seq<string>)
    ensures Split(text, mode, word, first + words) == Behind(first, Split(text, mode, word, words))
    decreases |text|
  {
    assert first + (words + [word]) == first + words + [word];
    if text != [] {
      var c, rest := text[0], text[1..];
      if mode.InQuotes? {
        if c == '\'' {
          EarlierWordsStay(rest, Bare, word, first, words);
        } else {
          EarlierWordsStay(rest, InQuotes, word + [c], first, words);
        }
      } else if c == '\'' {
        EarlierWordsStay(rest, InQuotes, word, first, words);
      } else if c == '\\' {
        if rest != [] && rest[0] == '\n' {
          EarlierWordsStay(rest[1..], mode, word, first, words);
        } else if rest != [] {
          EarlierWordsStay(rest[1..], Bare, word + [rest[0]], first, words);
        }
      } else if Blank(c) {
        EarlierWordsStay(rest, Between, [], first, if mode.Bare? then words + [word] else words);
      } else {
        EarlierWordsStay(rest, Bare, word + [c], first, words);
      }
    }
  }

  /** Unquoted text that stands for itself. */
  predicate Plain(text: string) {
    forall i :: 0 <= i < |text| ==> !Special(text[i]) && !Blank(text[i]) && text[i] !in {'\'', '\\'}
  }

  lemma {:induction false} PlainAddsToWord(prefix: string, rest: string, mode: Mode, word: string, words: seq<string>)
    requires Plain(prefix) && prefix != [] && !mode.InQuotes?
    ensures Split(prefix + rest, mode, word, words) == Split(rest, Bare, word + prefix, words)
    decreases |prefix|
  {
    assert (prefix + rest)[1..] == prefix[1..] + rest;
    assert word + prefix == word + [prefix[0]] + prefix[1..];
    if |prefix| > 1 {
      PlainAddsToWord(prefix[1..], rest, Bare, word + [prefix[0]], words);
    } else {
      assert prefix[1..] + rest == rest && prefix == [prefix[0]];
    }
  }

  /** In a command, behind other words, glued to a plain prefix as in an option, and
      at the end or in front of other words, the quoted value still is exactly its own
      piece of one word. */
  lemma CommandRoundTrip(before: string, prefix: string, value: string, tail: string)
    requires Words(before).Some? && Words(tail).Some? && Plain(prefix)
    requires tail == [] || tail[0] == ' '
    ensures Words(before + " " + (prefix + (Quoted(value) + tail)))
         == Some(Words(before).value + [prefix + value] + Words(tail).value)
  {
    var first := Words(before).value;
    SplitAfterSpace(before, prefix + (Quoted(value) + tail), Between, [], []);
    if prefix == [] {
      assert prefix + (Quoted(value) + tail) == Quoted(value) + tail;
      QuotedAddsToWord(value, tail, Between, [], first);
    } else {
      PlainAddsToWord(prefix, Quoted(value) + tail, Between, [], first);
      QuotedAddsToWord(value, tail, Bare, [] + prefix, first);
    }
    assert [] + prefix + value == prefix + value;
    var words := first + [prefix + value];
    if tail == [] {
      assert words + [] == words;
    } else {
      assert words + [] == words;
      EarlierWordsStay(tail[1..], Between, [], words, []);
    }
  }
}
