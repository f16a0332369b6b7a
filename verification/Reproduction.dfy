/** Building the informational curl command of a finding from its stored evidence. */
module Reproduction {
  import opened Basics
  import opened Shell
  import opened Text
  import Joining

  datatype Kind = RequestResponse | Baseline | OtherKind(name: string)

  /** item is what the content parses to as a request and response record, if it does. */
  datatype Stored = Stored(kind: Kind, item: Option<Item>)

  datatype Item = Item(request: string, parameter: string, payload: string)

  predicate Usable(e: Stored) {
    !e.kind.OtherKind? && e.item.Some? && e.item.value.request != ""
  }

  /** The last usable item: detectors put their confirming probe after the baseline. */
  method MostSpecific(evidence: seq<Stored>) returns (item: Option<Item>)
    ensures item.None? <==> forall i :: 0 <= i < |evidence| ==> !Usable(evidence[i])
    ensures item.Some? ==> exists i :: 0 <= i < |evidence| && Usable(evidence[i]) && evidence[i].item == item
                                       && forall k :: i < k < |evidence| ==> !Usable(evidence[k])
  {
    var i := |evidence|;
    while i > 0
      invariant 0 <= i <= |evidence|
      invariant forall k :: i <= k < |evidence| ==> !Usable(evidence[k])
    {
      i := i - 1;
      var e := evidence[i];
      if e.kind.OtherKind? || e.item.None? {
        continue;
      }
      if e.item.value.request != "" {
        return e.item;
      }
    }
    return None;
  }

  /** "METHOD URL", cut at the first space; both must be there. */
  function SplitRequestLine(line: string): Option<(string, string)> {
    var head, rest := Joining.Split(line, ' ')[0], RestAfterSpace(line);
    if rest.None? || head == "" || rest.value == "" then None else Some((head, rest.value))
  }

  function RestAfterSpace(line: string): Option<string> {
    if line == "" then None else if line[0] == ' ' then Some(line[1..]) else RestAfterSpace(line[1..])
  }

  /** The two parts are determined by the line, and put back together they are the line. */
  lemma SplitAtFirstSpace(line: string)
    ensures match SplitRequestLine(line)
            case Some(p) => line == p.0 + " " + p.1 && ' ' !in p.0 && p.0 != "" && p.1 != ""
            case None => forall a: string, b: string :: line == a + " " + b && ' ' !in a ==> a == "" || b == ""
  {
    HeadAndRest(line);
    if SplitRequestLine(line).None? {
      forall a: string, b: string | line == a + " " + b && ' ' !in a ensures a == "" || b == "" {
        FirstSpace(a, b);
      }
    }
  }

  lemma {:induction false} HeadAndRest(line: string)
    ensures ' ' !in Joining.Split(line, ' ')[0]
    ensures RestAfterSpace(line).Some? ==> line == Joining.Split(line, ' ')[0] + " " + RestAfterSpace(line).value
  {
    if line != "" {
      HeadAndRest(line[1..]);
      assert line == [line[0]] + line[1..];
    }
  }

  lemma {:induction false} FirstSpace(a: string, b: string)
    requires ' ' !in a
    ensures Joining.Split(a + " " + b, ' ')[0] == a && RestAfterSpace(a + " " + b) == Some(b)
  {
    var s := a + " " + b;
    if a == "" {
      assert s[1..] == b;
    } else {
      assert s[1..] == a[1..] + " " + b;
      FirstSpace(a[1..], b);
      assert [a[0]] + a[1..] == a;
    }
  }

  predicate IsGet(verb: string) {
    ToLower(verb) == "get"
  }

  predicate HasData(verb: string, item: Item) {
    item.parameter != "" && item.payload != "" && !IsGet(verb)
  }

  function Words(verb: string, url: string, item: Item): seq<Word> {
    [Fixed("curl"), Fixed("-X"), Quote(verb), Quote(url)]
    + if HasData(verb, item) then [Fixed("-d"), Quote(item.parameter + "=" + item.payload)] else []
  }

  datatype Note = NoEvidence | Unparseable | SingleParameter | InQuery | InformationOnly

  lemma FixedWords()
    ensures GoodWord(Fixed("curl")) && GoodWord(Fixed("-X")) && GoodWord(Fixed("-d"))
  {
    assert "curl"[0] == 'c' && "curl"[1] == 'u' && "curl"[2] == 'r' && "curl"[3] == 'l';
    assert "-X"[0] == '-' && "-X"[1] == 'X' && "-d"[0] == '-' && "-d"[1] == 'd';
  }

  lemma GoodWords(verb: string, url: string, item: Item)
    ensures forall i :: 0 <= i < |Words(verb, url, item)| ==> GoodWord(Words(verb, url, item)[i])
  {
    FixedWords();
  }

  /** The arguments of the command, in order: the parameter goes into the body of any request but a GET. */
  function Arguments(verb: string, url: string, parameter: string, payload: string): seq<string> {
    if ToLower(verb) == "get" || parameter == "" || payload == "" then ["curl", "-X", verb, url]
    else ["curl", "-X", verb, url, "-d", parameter + "=" + payload]
  }

  lemma ArgumentsOfWords(verb: string, url: string, item: Item)
    ensures Args(Words(verb, url, item)) == Arguments(verb, url, item.parameter, item.payload)
  {
  }

  method BuildCurl(evidence: seq<Stored>) returns (cmd: string, notes: seq<Note>, ghost words: seq<Word>)
    ensures cmd == "" <==> InformationOnly !in notes
    ensures cmd != "" ==> exists i, verb: string, url: string :: Specific(evidence, i)
                            && SplitRequestLine(evidence[i].item.value.request) == Some((verb, url))
                            && words == Words(verb, url, evidence[i].item.value)
                            && Lex(cmd) == Some(Arguments(verb, url, evidence[i].item.value.parameter, evidence[i].item.value.payload))
    ensures cmd != "" ==> Lex(cmd) == Some(Args(words)) && cmd == CommandOf(words)
                          && Lex(Sanitized(cmd)) == Some(seq(|words|, i requires 0 <= i < |words| => Sanitized(ArgOf(words[i]))))
    ensures cmd != "" ==> (SingleParameter in notes <==> |words| > 4)
  {
    words := [];
    var found := MostSpecific(evidence);
    if found.None? {
      return "", [NoEvidence], [];
    }
    var item := found.value;
    var line := SplitRequestLine(item.request);
    if line.None? {
      return "", [Unparseable], [];
    }
    var verb, url := line.value.0, line.value.1;
    var parts := ["curl", "-X", ShellQuote(verb), ShellQuote(url)];
    notes := [];
    if item.parameter != "" && item.payload != "" && !IsGet(verb) {
      parts := parts + ["-d", ShellQuote(item.parameter + "=" + item.payload)];
      notes := notes + [SingleParameter];
    }
    if item.parameter != "" && item.payload != "" && IsGet(verb) {
      notes := notes + [InQuery];
    }
    notes := notes + [InformationOnly];
    cmd := Joining.Join(parts, ' ');
    words := Words(verb, url, item);
    assert parts == Texts(words);
    GoodWords(verb, url, item);
    ArgumentsOfWords(verb, url, item);
    LexCommand(words);
    LexSanitized(words);
    assert Args(words)[0] == "curl";
  }

  ghost predicate Specific(evidence: seq<Stored>, i: int) {
    0 <= i < |evidence| && Usable(evidence[i]) && forall k :: i < k < |evidence| ==> !Usable(evidence[k])
  }
}
