/** The printed curl command: quoting, the quoting rules of the POSIX Shell Command Language (section 2.2)
    as a lexer, and what removing terminal control characters does to the command. */
module Shell {
  import opened Basics
  import Joining

  // ----- the lexer -----

  predicate IsBlank(c: char) {
    c == ' ' || c == '\t'
  }

  /** Characters that mean something to the shell when unquoted, besides blanks, quotes and backslash. */
  predicate IsSpecial(c: char) {
    || c == '|' || c == '&' || c == ';' || c == '<' || c == '>' || c == '(' || c == ')' || c == '$' || c == '`'
    || c == '"' || c == '*' || c == '?' || c == '[' || c == ']' || c == '#' || c == '~' || c == '=' || c == '%'
    || c == '!' || c == '{' || c == '}' || c < ' '
  }

  predicate IsOrdinary(c: char) {
    !IsBlank(c) && !IsSpecial(c) && c != '\'' && c != '\\'
  }

  /** The text up to the next single quote, and what follows that quote. */
  function CloseQuote(s: string): Option<(string, string)>
    ensures CloseQuote(s).Some? ==> |CloseQuote(s).value.1| < |s|
  {
    if s == "" then None
    else if s[0] == '\'' then Some(("", s[1..]))
    else
      match CloseQuote(s[1..])
      case None => None
      case Some(p) => Some(([s[0]] + p.0, p.1))
  }

  function Extend(word: Option<string>, more: string): Option<string> {
    match word case Some(w) => Some(w + more) case None => Some(more)
  }

  function Flush(word: Option<string>): seq<string> {
    match word case Some(w) => [w] case None => []
  }

  /** The words of a command that has nothing but words: an unquoted special character, an open quote or a
      trailing backslash makes it None. word is the word being read. */
  function LexFrom(s: string, word: Option<string>): Option<seq<string>>
    decreases |s|
  {
    if s == "" then Some(Flush(word))
    else if IsBlank(s[0]) then
      match LexFrom(s[1..], None)
      case None => None
      case Some(words) => Some(Flush(word) + words)
    else if s[0] == '\'' then
      match CloseQuote(s[1..])
      case None => None
      case Some(p) => LexFrom(p.1, Extend(word, p.0))
    else if s[0] == '\\' then
      if |s| < 2 then None
      else if s[1] == '\n' then LexFrom(s[2..], word)
      else LexFrom(s[2..], Extend(word, [s[1]]))
    else if IsSpecial(s[0]) then None
    else LexFrom(s[1..], Extend(word, [s[0]]))
  }

  function Lex(s: string): Option<seq<string>> {
    LexFrom(s, None)
  }

  // ----- shellQuote -----

  /** strings.ReplaceAll(s, "'", `'\''`). */
  function CloseAndReopen(s: string): string {
    if s == "" then "" else (if s[0] == '\'' then "'\\''" else [s[0]]) + CloseAndReopen(s[1..])
  }

  function ShellQuote(s: string): string {
    "'" + (CloseAndReopen(s) + "'")
  }

  lemma {:induction false} CloseAt(p: string, t: string)
    requires Joining.Free(p, '\'')
    ensures CloseQuote(p + ("'" + t)) == Some((p, t))
  {
    if p == "" {
      assert p + ("'" + t) == "'" + t;
    } else {
      CloseAt(p[1..], t);
      assert p[0] in p && [p[0]] + p[1..] == p;
      assert (p + ("'" + t))[1..] == p[1..] + ("'" + t);
    }
  }

  lemma FreeCons(c: char, p: string)
    requires c != '\'' && Joining.Free(p, '\'')
    ensures Joining.Free([c] + p, '\'')
  {
    var q := [c] + p;
    forall i | 0 <= i < |q| ensures q[i] != '\'' {
      assert i > 0 ==> q[i] == p[i - 1] && p[i - 1] in p;
    }
  }

  /** The quote-free start of s, and the rest from its first quote on. */
  lemma {:induction false} UpToQuote(s: string) returns (p: string, rest: string)
    ensures s == p + rest && Joining.Free(p, '\'') && (rest != "" ==> rest[0] == '\'')
    ensures CloseAndReopen(s) == p + CloseAndReopen(rest)
  {
    if s == "" || s[0] == '\'' {
      p, rest := "", s;
      assert p + CloseAndReopen(rest) == CloseAndReopen(s);
    } else {
      p, rest := UpToQuote(s[1..]);
      assert s == [s[0]] + s[1..];
      assert [s[0]] + (p + CloseAndReopen(rest)) == ([s[0]] + p) + CloseAndReopen(rest);
      FreeCons(s[0], p);
      p := [s[0]] + p;
    }
  }

  lemma LexOpen(p: string, t: string, word: Option<string>)
    requires Joining.Free(p, '\'')
    ensures LexFrom("'" + (p + ("'" + t)), word) == LexFrom(t, Extend(word, p))
  {
    CloseAt(p, t);
    assert ("'" + (p + ("'" + t)))[1..] == p + ("'" + t);
  }

  lemma LexEscapedQuote(t: string, word: Option<string>)
    ensures LexFrom("\\'" + t, word) == LexFrom(t, Extend(word, "'"))
  {
    assert ("\\'" + t)[2..] == t;
  }

  /** Reading a quoted value adds exactly that value to the word, whatever follows. */
  lemma {:induction false} LexQuoted(s: string, t: string, word: Option<string>)
    ensures LexFrom(ShellQuote(s) + t, word) == LexFrom(t, Extend(word, s))
    decreases |s|
  {
    var p, rest := UpToQuote(s);
    if rest == "" {
      assert s == p;
      assert ShellQuote(s) + t == "'" + (p + ("'" + t));
      LexOpen(p, t, word);
    } else {
      var tail := ShellQuote(rest[1..]) + t;
      assert ShellQuote(s) + t == "'" + (p + ("'" + ("\\'" + tail)));
      LexOpen(p, "\\'" + tail, word);
      LexEscapedQuote(tail, Extend(word, p));
      LexQuoted(rest[1..], t, Extend(Extend(word, p), "'"));
      assert s == (p + "'") + rest[1..];
      ExtendTwice(word, p, "'", rest[1..]);
    }
  }

  lemma ExtendTwice(word: Option<string>, a: string, b: string, c: string)
    ensures Extend(Extend(Extend(word, a), b), c) == Extend(word, a + b + c)
  {
    if word.Some? {
      assert ((word.value + a) + b) + c == word.value + (a + b + c);
    }
  }

  // ----- commands -----

  /** A word of the command as it is written: a fixed word, or a quoted value. */
  datatype Word = Fixed(text: string) | Quote(value: string)

  function TextOf(w: Word): string {
    match w case Fixed(text) => text case Quote(value) => ShellQuote(value)
  }

  function ArgOf(w: Word): string {
    match w case Fixed(text) => text case Quote(value) => value
  }

  predicate GoodWord(w: Word) {
    w.Fixed? ==> w.text != "" && forall i :: 0 <= i < |w.text| ==> IsOrdinary(w.text[i]) && Kept(w.text[i])
  }

  function CommandOf(words: seq<Word>): string {
    Joining.Join(Texts(words), ' ')
  }

  function Texts(words: seq<Word>): seq<string> {
    seq(|words|, i requires 0 <= i < |words| => TextOf(words[i]))
  }

  function Args(words: seq<Word>): seq<string> {
    seq(|words|, i requires 0 <= i < |words| => ArgOf(words[i]))
  }

  lemma {:induction false} LexFixed(text: string, t: string, word: Option<string>)
    requires text != "" && forall i :: 0 <= i < |text| ==> IsOrdinary(text[i])
    ensures LexFrom(text + t, word) == LexFrom(t, Extend(word, text))
  {
    assert IsOrdinary(text[0]);
    assert (text + t)[1..] == text[1..] + t;
    if |text| == 1 {
      assert text == [text[0]] && text[1..] + t == t;
    } else {
      LexFixed(text[1..], t, Extend(word, [text[0]]));
      assert text == [text[0]] + text[1..];
      ExtendTwice(word, [text[0]], text[1..], "");
      assert [text[0]] + text[1..] + "" == text;
      ExtendNone(Extend(Extend(word, [text[0]]), text[1..]));
    }
  }

  lemma ExtendNone(word: Option<string>)
    requires word.Some?
    ensures Extend(word, "") == word
  {
    assert word.value + "" == word.value;
  }

  lemma LexWord(w: Word, t: string)
    requires GoodWord(w)
    ensures LexFrom(TextOf(w) + t, None) == LexFrom(t, Some(ArgOf(w)))
  {
    match w
    case Fixed(text) => LexFixed(text, t, None);
    case Quote(value) => LexQuoted(value, t, None);
  }

  lemma CommandCons(words: seq<Word>)
    requires words != []
    ensures CommandOf(words)
         == if |words| == 1 then TextOf(words[0]) else TextOf(words[0]) + ([' '] + CommandOf(words[1..]))
  {
    assert Texts(words)[1..] == Texts(words[1..]);
  }

  lemma LexBlank(rest: string, arg: string)
    ensures LexFrom([' '] + rest, Some(arg))
         == match Lex(rest) case None => None case Some(words) => Some([arg] + words)
  {
    assert ([' '] + rest)[1..] == rest;
  }

  /** Lexing a command gives back exactly the intended arguments. */
  lemma {:induction false} LexCommand(words: seq<Word>)
    requires forall i :: 0 <= i < |words| ==> GoodWord(words[i])
    ensures Lex(CommandOf(words)) == Some(Args(words))
  {
    if words == [] {
      assert Args(words) == [];
    } else {
      CommandCons(words);
      assert Args(words) == [ArgOf(words[0])] + Args(words[1..]);
      if |words| == 1 {
        LexWord(words[0], "");
        assert TextOf(words[0]) + "" == TextOf(words[0]);
        assert Args(words) == [ArgOf(words[0])];
        assert LexFrom("", Some(ArgOf(words[0]))) == Some([ArgOf(words[0])]);
      } else {
        LexCommand(words[1..]);
        LexWord(words[0], [' '] + CommandOf(words[1..]));
        LexBlank(CommandOf(words[1..]), ArgOf(words[0]));
      }
    }
  }

  // ----- sanitizeForTerminal -----

  predicate Kept(c: char) {
    c == '\n' || c == '\t' || (c >= ' ' && c != '\U{007F}')
  }

  function Sanitized(s: string): string
    decreases |s|
  {
    if s == "" then ""
    else Sanitized(s[..|s| - 1]) + if Kept(s[|s| - 1]) then [s[|s| - 1]] else ""
  }

  method SanitizeForTerminal(s: string) returns (out: string)
    ensures out == Sanitized(s)
  {
    out := "";
    for i := 0 to |s|
      invariant out == Sanitized(s[..i])
    {
      assert s[..i + 1][..i] == s[..i];
      if s[i] == '\n' || s[i] == '\t' {
        out := out + [s[i]];
      } else if s[i] == '\U{007F}' {
        continue;
      } else if s[i] < ' ' {
        continue;
      } else {
        out := out + [s[i]];
      }
    }
    assert s[..|s|] == s;
  }

  lemma {:induction false} SanitizedConcat(a: string, b: string)
    ensures Sanitized(a + b) == Sanitized(a) + Sanitized(b)
    decreases |b|
  {
    if b == "" {
      assert a + b == a;
    } else {
      var n := |b| - 1;
      SanitizedConcat(a, b[..n]);
      assert (a + b)[..|a + b| - 1] == a + b[..n];
    }
  }

  lemma {:induction false} SanitizedKept(s: string)
    ensures forall i :: 0 <= i < |Sanitized(s)| ==> Kept(Sanitized(s)[i])
    decreases |s|
  {
    if s != "" {
      SanitizedKept(s[..|s| - 1]);
    }
  }

  lemma {:induction false} SanitizedClean(s: string)
    requires forall i :: 0 <= i < |s| ==> Kept(s[i])
    ensures Sanitized(s) == s
    decreases |s|
  {
    if s != "" {
      SanitizedClean(s[..|s| - 1]);
      assert s == s[..|s| - 1] + [s[|s| - 1]];
    }
  }

  /** Only what is kept is left, clean text is unchanged, and sanitizing twice changes nothing. */
  lemma SanitizedFacts(s: string)
    ensures forall i :: 0 <= i < |Sanitized(s)| ==> Kept(Sanitized(s)[i])
    ensures (forall i :: 0 <= i < |s| ==> Kept(s[i])) ==> Sanitized(s) == s
    ensures Sanitized(Sanitized(s)) == Sanitized(s)
  {
    SanitizedKept(s);
    SanitizedClean(Sanitized(s));
    if forall i :: 0 <= i < |s| ==> Kept(s[i]) {
      SanitizedClean(s);
    }
  }

  /** A tab, a newline, or a character from the space on other than DEL. */
  ghost predicate Printable(c: char) {
    c as int == 9 || c as int == 10 || (32 <= c as int && c as int != 127)
  }

  /** Exactly the other control characters go, every occurrence of them, and every other character stays as
      often as it was there. */
  lemma {:induction false} SanitizedDrops(s: string, c: char)
    ensures multiset(Sanitized(s))[c] == if Printable(c) then multiset(s)[c] else 0
    decreases |s|
  {
    if s != "" {
      var n := |s| - 1;
      SanitizedDrops(s[..n], c);
      assert s == s[..n] + [s[n]];
    }
  }

  lemma SanitizedOne(c: char)
    ensures Sanitized([c]) == (if Kept(c) then [c] else "") && Sanitized("") == ""
  {
    assert [c][..0] == "";
  }

  function QuoteOne(c: char): string {
    if c == '\'' then "'\\''" else [c]
  }

  lemma SanitizedPair(a: char, b: char)
    requires Kept(a) && Kept(b)
    ensures Sanitized([a, b]) == [a, b]
  {
    SanitizedConcat([a], [b]);
    SanitizedOne(a);
    SanitizedOne(b);
    assert [a] + [b] == [a, b];
  }

  lemma SanitizedQuoteOne(c: char)
    ensures Sanitized(QuoteOne(c)) == if Kept(c) then QuoteOne(c) else ""
  {
    if c == '\'' {
      SanitizedPair('\'', '\\');
      SanitizedPair('\'', '\'');
      SanitizedConcat(['\'', '\\'], ['\'', '\'']);
      assert ['\'', '\\'] + ['\'', '\''] == QuoteOne(c);
    } else {
      SanitizedOne(c);
    }
  }

  lemma SanitizedSnoc(s: string, c: char)
    ensures Sanitized(s + [c]) == if Kept(c) then Sanitized(s) + [c] else Sanitized(s)
  {
    SanitizedConcat(s, [c]);
    SanitizedOne(c);
  }

  lemma {:induction false} SanitizedQuotes(s: string)
    ensures Sanitized(CloseAndReopen(s)) == CloseAndReopen(Sanitized(s))
    decreases |s|
  {
    if s != "" {
      var rest, c := s[..|s| - 1], s[|s| - 1];
      assert s == rest + [c];
      SanitizedQuotes(rest);
      CloseSnoc(rest, c);
      SanitizedConcat(CloseAndReopen(rest), QuoteOne(c));
      SanitizedQuoteOne(c);
      SanitizedSnoc(rest, c);
      CloseSnoc(Sanitized(rest), c);
      assert Sanitized(CloseAndReopen(rest)) + "" == Sanitized(CloseAndReopen(rest));
    }
  }

  lemma CloseCons(c: char, s: string)
    ensures CloseAndReopen([c] + s) == QuoteOne(c) + CloseAndReopen(s)
  {
    assert ([c] + s)[1..] == s;
  }

  lemma {:induction false} CloseSnoc(s: string, c: char)
    ensures CloseAndReopen(s + [c]) == CloseAndReopen(s) + QuoteOne(c)
  {
    if s == "" {
      CloseCons(c, "");
      assert s + [c] == [c] + "";
    } else {
      var rest := s[1..];
      CloseSnoc(rest, c);
      CloseCons(s[0], rest + [c]);
      CloseCons(s[0], rest);
      assert s == [s[0]] + rest && s + [c] == [s[0]] + (rest + [c]);
    }
  }

  lemma SanitizedQuote(s: string)
    ensures Sanitized(ShellQuote(s)) == ShellQuote(Sanitized(s))
  {
    SanitizedOne('\'');
    SanitizedQuotes(s);
    SanitizedConcat(CloseAndReopen(s), "'");
    SanitizedConcat("'", CloseAndReopen(s) + "'");
  }

  function Clean(words: seq<Word>): seq<Word> {
    seq(|words|, i requires 0 <= i < |words| => CleanWord(words[i]))
  }

  function CleanWord(w: Word): Word {
    match w case Fixed(_) => w case Quote(value) => Quote(Sanitized(value))
  }

  lemma SanitizedWord(w: Word)
    requires GoodWord(w)
    ensures Sanitized(TextOf(w)) == TextOf(CleanWord(w)) && ArgOf(CleanWord(w)) == Sanitized(ArgOf(w)) && GoodWord(CleanWord(w))
  {
    match w
    case Fixed(text) =>
      SanitizedFacts(text);
    case Quote(value) => SanitizedQuote(value);
  }

  lemma SanitizedSpaced(a: string, b: string)
    ensures Sanitized(a + ([' '] + b)) == Sanitized(a) + ([' '] + Sanitized(b))
  {
    SanitizedOne(' ');
    SanitizedConcat([' '], b);
    SanitizedConcat(a, [' '] + b);
  }

  lemma {:induction false} SanitizedJoin(words: seq<Word>)
    requires forall i :: 0 <= i < |words| ==> GoodWord(words[i])
    ensures Sanitized(CommandOf(words)) == CommandOf(Clean(words))
  {
    if words != [] {
      SanitizedWord(words[0]);
      CommandCons(words);
      CommandCons(Clean(words));
      assert Clean(words)[1..] == Clean(words[1..]);
      if |words| > 1 {
        SanitizedJoin(words[1..]);
        SanitizedSpaced(TextOf(words[0]), CommandOf(words[1..]));
      }
    }
  }

  /** Lexing the command as the terminal shows it gives exactly the sanitized arguments. */
  lemma LexSanitized(words: seq<Word>)
    requires forall i :: 0 <= i < |words| ==> GoodWord(words[i])
    ensures Lex(Sanitized(CommandOf(words))) == Some(seq(|words|, i requires 0 <= i < |words| => Sanitized(ArgOf(words[i]))))
  {
    SanitizedJoin(words);
    forall i | 0 <= i < |words| ensures GoodWord(Clean(words)[i]) && ArgOf(Clean(words)[i]) == Sanitized(ArgOf(words[i])) {
      SanitizedWord(words[i]);
    }
    LexCommand(Clean(words));
    assert Args(Clean(words)) == seq(|words|, i requires 0 <= i < |words| => Sanitized(ArgOf(words[i])));
  }
}
