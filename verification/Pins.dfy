/** The pins.txt file of the command-line client (relay_cli.cpp): the first fingerprint seen
    for a relay and a room is the only one accepted there afterwards. */
module Pins {
  import opened ByteStrings
  import opened Text
  import opened RoomUrl
  import opened Crypto
  import opened IdentityStore

  // ---- Reading words from a stream

  /** Not empty and without white space: what extraction from a stream gives back whole. */
  predicate Word(s: string) { s != "" && forall i :: 0 <= i < |s| ==> !IsSpace(s[i]) }

  function WordOf(current: string): seq<string> { if current == "" then [] else [current] }

  /** The words of a text, the first of them begun with what has been read of it. */
  function TokensFrom(current: string, s: string): seq<string>
    decreases |s|
  {
    if s == "" then WordOf(current)
    else if IsSpace(s[0]) then WordOf(current) + TokensFrom("", s[1..])
    else TokensFrom(current + [s[0]], s[1..])
  }

  /** The words of a text, in order. */
  function Tokens(s: string): seq<string> { TokensFrom("", s) }

  class Input {
    var rest: string

    constructor (text: string)
      ensures rest == text
    {
      rest := text;
    }

    /** The next word, None at the end of the text. */
    method Next() returns (t: Option<string>)
      modifies this
      ensures Tokens(old(rest)) == if t.None? then [] else [t.value] + Tokens(rest)
      ensures t.None? ==> rest == ""
      ensures t.Some? ==> |rest| < |old(rest)|
    {
      while rest != "" && IsSpace(rest[0])
        invariant Tokens(rest) == Tokens(old(rest)) && |rest| <= |old(rest)|
        decreases |rest|
      {
        rest := rest[1..];
      }
      if rest == "" {
        return None;
      }
      var word := [rest[0]];
      assert "" + [rest[0]] == word;
      rest := rest[1..];
      while rest != "" && !IsSpace(rest[0])
        invariant TokensFrom(word, rest) == Tokens(old(rest)) && word != "" && |rest| < |old(rest)|
        decreases |rest|
      {
        word := word + [rest[0]];
        rest := rest[1..];
      }
      return Some(word);
    }
  }

  // ---- The pin file

  /** The value of the first pair of words whose key is the wanted one. */
  function Lookup(words: seq<string>, key: string): Option<string>
  {
    if |words| < 2 then None
    else if words[0] == key then Some(words[1])
    else Lookup(words[2..], key)
  }

  /** How many pairs have this key. */
  function Entries(words: seq<string>, key: string): nat
  {
    if |words| < 2 then 0 else (if words[0] == key then 1 else 0) + Entries(words[2..], key)
  }

  function Words(file: Option<string>): seq<string> { if file.None? then [] else Tokens(file.value) }

  function PinOf(file: Option<string>, key: string): Option<string> { Lookup(Words(file), key) }

  function Line(key: string, val: string): string { key + " " + val + "\n" }

  function Saved(file: Option<string>, key: string, val: string, writes: bool): Option<string>
  {
    if PinOf(file, key).Some? || !writes then file
    else Some((if file.None? then "" else file.value) + Line(key, val))
  }

  /** One use of the command-line client that got through the handshake; writes says whether
      a line can be appended to the file. */
  datatype Run = Run(key: string, peer: string, writes: bool)

  function PinKey(relay: string, room: string): string { UrlHost(relay) + "#" + room }

  /** The run goes on to the chat. */
  predicate Admitted(file: Option<string>, run: Run)
  {
    PinOf(file, run.key) in {None, Some(run.peer)}
  }

  function After(file: Option<string>, run: Run): Option<string> { Saved(file, run.key, run.peer, run.writes) }

  class PinStore {
    var file: Option<string>

    constructor (contents: Option<string>)
      ensures file == contents
    {
      file := contents;
    }

    /** Empty if there is no pin. */
    method LoadPin(key: string) returns (v: string)
      ensures v == match PinOf(file, key) case None => "" case Some(pin) => pin
    {
      if file.None? {
        return "";
      }
      var f := new Input(file.value);
      while true
        invariant fresh(f) && Lookup(Tokens(f.rest), key) == PinOf(file, key)
        decreases |f.rest|
      {
        ghost var words := Tokens(f.rest);
        var k := f.Next();
        if k.None? {
          return "";
        }
        ghost var more := Tokens(f.rest);
        var val := f.Next();
        if val.None? {
          return "";
        }
        assert words[1] == val.value && words[2..] == Tokens(f.rest);
        if k.value == key {
          return val.value;
        }
      }
    }

    method SavePin(key: string, val: string, writes: bool)
      modifies this
      ensures file == Saved(old(file), key, val, writes)
    {
      var exists_ := false;
      if file.Some? {
        var fin := new Input(file.value);
        var reading := true;
        while reading
          invariant fresh(fin) && file == old(file)
          invariant if reading then !exists_ && Lookup(Tokens(fin.rest), key) == PinOf(file, key)
                    else exists_ == PinOf(file, key).Some?
          decreases reading, |fin.rest|
        {
          ghost var words := Tokens(fin.rest);
          var k := fin.Next();
          if k.None? {
            reading := false;
          } else {
            var v := fin.Next();
            if v.None? {
              reading := false;
            } else {
              assert words[1] == v.value && words[2..] == Tokens(fin.rest);
              if k.value == key {
                exists_ := true;
                reading := false;
              }
            }
          }
        }
      }
      if !exists_ && writes {
        file := Some((if file.None? then "" else file.value) + key + " " + val + "\n");
        assert file.value == (if old(file).None? then "" else old(file).value) + Line(key, val);
      }
    }

    /** The pin decision of one run. */
    method Admit(relay: string, room: string, peer: string, writes: bool) returns (chat: bool)
      modifies this
      ensures var run := Run(PinKey(relay, room), peer, writes);
              chat == Admitted(old(file), run) && file == After(old(file), run)
    {
      var key := UrlHost(relay) + "#" + room;
      var pinned := LoadPin(key);
      PinsAreWords(file, key);
      if pinned != "" && pinned != peer {
        return false;
      }
      if pinned == "" {
        SavePin(key, peer, writes);
      }
      return true;
    }
  }

  lemma {:induction false} TokensAreWords(current: string, s: string)
    requires current == "" || Word(current)
    ensures forall t :: t in TokensFrom(current, s) ==> Word(t)
    decreases |s|
  {
    if s != "" {
      if IsSpace(s[0]) {
        TokensAreWords("", s[1..]);
      } else {
        TokensAreWords(current + [s[0]], s[1..]);
      }
    }
  }

  lemma {:induction false} LookupIsWord(words: seq<string>, key: string)
    ensures Lookup(words, key).Some? ==> Lookup(words, key).value in words
    ensures Lookup(words, key).Some? <==> 0 < Entries(words, key)
  {
    if 2 <= |words| {
      LookupIsWord(words[2..], key);
    }
  }

  lemma PinsAreWords(file: Option<string>, key: string)
    ensures PinOf(file, key).Some? ==> Word(PinOf(file, key).value)
  {
    LookupIsWord(Words(file), key);
    if file.Some? {
      TokensAreWords("", file.value);
    }
  }

  // ---- Appending a line

  /** Lines of pairs: an even number of words, and white space behind the last. */
  predicate Lines(text: string)
  {
    (text == "" || IsSpace(text[|text| - 1])) && |Tokens(text)| % 2 == 0
  }

  lemma TokensFromSpace(current: string, c: char, rest: string)
    requires IsSpace(c)
    ensures TokensFrom(current, [c] + rest) == WordOf(current) + TokensFrom("", rest)
  {
    assert ([c] + rest)[1..] == rest;
  }

  lemma TokensFromLetter(current: string, c: char, rest: string)
    requires !IsSpace(c)
    ensures TokensFrom(current, [c] + rest) == TokensFrom(current + [c], rest)
  {
    assert ([c] + rest)[1..] == rest;
  }

  lemma Regroup(words: seq<string>, a: seq<string>, b: seq<string>)
    ensures words + (a + b) == words + a + b
  {
  }

  lemma {:induction false} TokensAppend(current: string, a: string, b: string)
    requires if a == "" then current == "" else IsSpace(a[|a| - 1])
    ensures TokensFrom(current, a + b) == TokensFrom(current, a) + Tokens(b)
    decreases |a|, 1
  {
    if a == "" {
      assert a + b == b;
    } else if IsSpace(a[0]) {
      TokensAppendSpace(current, a, b);
    } else {
      TokensAppendLetter(current, a, b);
    }
  }

  lemma {:induction false} TokensAppendSpace(current: string, a: string, b: string)
    requires a != "" && IsSpace(a[|a| - 1]) && IsSpace(a[0])
    ensures TokensFrom(current, a + b) == TokensFrom(current, a) + Tokens(b)
    decreases |a|, 0
  {
    var c, rest := a[0], a[1..];
    TokensAppend("", rest, b);
    TokensFromSpace(current, c, rest);
    TokensFromSpace(current, c, rest + b);
    Regroup(WordOf(current), Tokens(rest), Tokens(b));
    assert a == [c] + rest && a + b == [c] + (rest + b);
  }

  lemma {:induction false} TokensAppendLetter(current: string, a: string, b: string)
    requires a != "" && IsSpace(a[|a| - 1]) && !IsSpace(a[0])
    ensures TokensFrom(current, a + b) == TokensFrom(current, a) + Tokens(b)
    decreases |a|, 0
  {
    var c, rest := a[0], a[1..];
    TokensAppend(current + [c], rest, b);
    TokensFromLetter(current, c, rest);
    TokensFromLetter(current, c, rest + b);
    assert a == [c] + rest && a + b == [c] + (rest + b);
  }

  lemma {:induction false} TokensOfWord(current: string, word: string)
    requires forall i :: 0 <= i < |word| ==> !IsSpace(word[i])
    ensures TokensFrom(current, word) == WordOf(current + word)
    decreases |word|
  {
    if word == "" {
      assert current + word == current;
    } else {
      TokensOfWord(current + [word[0]], word[1..]);
      assert current + [word[0]] + word[1..] == current + word;
    }
  }

  /** A word and the white space that ends it. */
  lemma TokensOfWordLine(word: string, space: char)
    requires Word(word) && IsSpace(space)
    ensures Tokens(word + [space]) == [word]
  {
    WordThenSpace("", word, space);
    assert "" + word == word;
  }

  lemma {:induction false} WordThenSpace(current: string, word: string, space: char)
    requires (forall i :: 0 <= i < |word| ==> !IsSpace(word[i])) && IsSpace(space)
    ensures TokensFrom(current, word + [space]) == WordOf(current + word)
    decreases |word|
  {
    if word == "" {
      assert current + word == current && word + [space] == [space];
      assert TokensFrom("", [space][1..]) == [];
    } else {
      WordThenSpace(current + [word[0]], word[1..], space);
      assert (word + [space])[1..] == word[1..] + [space];
      assert current + [word[0]] + word[1..] == current + word;
    }
  }

  /** The last word of a text that ends in one. */
  lemma {:induction false} LastWord(text: string) returns (front: string, word: string)
    requires text != "" && !IsSpace(text[|text| - 1])
    ensures text == front + word && Word(word) && (front == "" || IsSpace(front[|front| - 1]))
  {
    var n := |text| - 1;
    if n == 0 || IsSpace(text[n - 1]) {
      front, word := text[..n], text[n..];
    } else {
      front, word := LastWord(text[..n]);
      word := word + [text[n]];
    }
  }

  lemma TokensUpToWord(front: string, word: string)
    requires Word(word) && (front == "" || IsSpace(front[|front| - 1]))
    ensures Tokens(front + word) == Tokens(front) + [word]
  {
    TokensAppend("", front, word);
    TokensOfWord("", word);
    assert "" + word == word;
  }

  lemma TokensOfLine(key: string, val: string)
    requires Word(key) && Word(val)
    ensures Tokens(Line(key, val)) == [key, val] && Lines(Line(key, val))
  {
    TokensOfWordLine(key, ' ');
    TokensOfWordLine(val, '\n');
    TokensAppend("", key + [' '], val + ['\n']);
    assert Line(key, val) == (key + [' ']) + (val + ['\n']);
    assert Line(key, val)[|Line(key, val)| - 1] == '\n';
  }

  lemma {:induction false} LookupAppend(a: seq<string>, b: seq<string>, key: string)
    requires |a| % 2 == 0
    ensures Lookup(a + b, key) == if Lookup(a, key).Some? then Lookup(a, key) else Lookup(b, key)
    ensures Entries(a + b, key) == Entries(a, key) + Entries(b, key)
  {
    if a == [] {
      assert a + b == b;
    } else {
      LookupAppend(a[2..], b, key);
      assert (a + b)[2..] == a[2..] + b;
    }
  }

  lemma WordsOfLineAppended(text: string, key: string, val: string)
    requires (text == "" || IsSpace(text[|text| - 1])) && Word(key) && Word(val)
    ensures Tokens(text + Line(key, val)) == Tokens(text) + [key, val]
  {
    TokensOfLine(key, val);
    TokensAppend("", text, Line(key, val));
  }

  /** A line is the key, one blank, the value, and a line feed. */
  lemma LineText(key: string, val: string)
    ensures |Line(key, val)| == |key| + |val| + 2 && key <= Line(key, val)
    ensures Line(key, val)[|key|] == ' ' && Line(key, val)[|key| + 1..|key| + 1 + |val|] == val
    ensures Line(key, val)[|key| + 1 + |val|] == '\n'
  {
  }

  /** A line appended to lines of pairs is one more pair. */
  lemma LineAppended(text: string, key: string, val: string)
    requires Lines(text) && Word(key) && Word(val)
    ensures Tokens(text + Line(key, val)) == Tokens(text) + [key, val] && Lines(text + Line(key, val))
  {
    WordsOfLineAppended(text, key, val);
    assert Line(key, val)[|Line(key, val)| - 1] == '\n';
  }

  lemma LookupAppendOdd(words: seq<string>, a: string, b: string, key: string)
    requires |words| % 2 == 1 && Lookup(words, key).None?
    ensures Lookup(words + [a, b], key) == if words[|words| - 1] == key then Some(a) else None
  {
    var n := |words| - 1;
    UnpinnedPart(words, n, key);
    LookupAppend(words[..n], [words[n], a, b], key);
    assert words + [a, b] == words[..n] + [words[n], a, b];
    assert [words[n], a, b][2..] == [b];
  }

  /** A new pin can be read back exactly when the file held lines of pairs. */
  lemma PinReadBack(text: string, key: string, val: string)
    requires Word(key) && Word(val) && key != val && Lookup(Tokens(text), key).None?
    ensures Lookup(Tokens(text + Line(key, val)), key) == Some(val) <==> Lines(text)
  {
    if text == "" || IsSpace(text[|text| - 1]) {
      WordsOfLineAppended(text, key, val);
      PairReadBack(Tokens(text), key, val, key);
    } else {
      var front, word := LastWord(text);
      TokensUpToWord(front, word);
      GluedPinLost(text, front, word, key, val);
    }
  }

  lemma PairReadBack(words: seq<string>, key: string, val: string, first: string)
    requires key != val && Lookup(words, key).None?
    ensures Lookup(words + [first, val], key) == Some(val) <==>
            if |words| % 2 == 0 then first == key else words[|words| - 1] == key && first == val
  {
    if |words| % 2 == 0 {
      LookupAppend(words, [first, val], key);
      LookupPair(first, val, key);
    } else {
      LookupAppendOdd(words, first, val, key);
    }
  }

  lemma GluedLine(front: string, word: string, key: string, val: string)
    ensures front + word + Line(key, val) == front + Line(word + key, val)
  {
  }

  /** A last word without white space behind it swallows the key of the new line. */
  lemma GluedPinLost(text: string, front: string, word: string, key: string, val: string)
    requires text == front + word && Word(word) && (front == "" || IsSpace(front[|front| - 1]))
    requires Tokens(text) == Tokens(front) + [word]
    requires Word(key) && Word(val) && key != val && Lookup(Tokens(text), key).None?
    ensures Lookup(Tokens(text + Line(key, val)), key) != Some(val)
  {
    GluedLine(front, word, key, val);
    WordsOfLineAppended(front, word + key, val);
    assert |word + key| > |key|;
    var words := Tokens(front);
    FrontUnpinned(words, word, key);
    PairReadBack(words, key, val, word + key);
  }

  lemma FrontUnpinned(words: seq<string>, word: string, key: string)
    requires Lookup(words + [word], key).None?
    ensures Lookup(words, key).None?
    ensures |words| % 2 == 1 ==> words[|words| - 1] != key
  {
    var n := |words| - |words| % 2;
    UnpinnedPart(words + [word], n, key);
    assert (words + [word])[..n] == words[..n];
    LookupAppend(words[..n], words[n..], key);
    assert words == words[..n] + words[n..];
  }

  lemma UnpinnedPart(words: seq<string>, n: nat, key: string)
    requires n <= |words| && n % 2 == 0 && Lookup(words, key).None?
    ensures Lookup(words[..n], key).None?
    ensures n + 2 <= |words| ==> words[n] != key
  {
    LookupAppend(words[..n], words[n..], key);
    assert words == words[..n] + words[n..];
  }

  // ---- Sequences of runs

  predicate WellFormed(file: Option<string>) { file.None? || Lines(file.value) }

  predicate ValidRun(run: Run) { Word(run.key) && Word(run.peer) }

  predicate ValidRuns(runs: seq<Run>) { forall i :: 0 <= i < |runs| ==> ValidRun(runs[i]) }

  /** What one run makes of the words of the file. */
  function Pinned(words: seq<string>, run: Run): seq<string>
  {
    if Lookup(words, run.key).None? && run.writes then words + [run.key, run.peer] else words
  }

  lemma AfterIsPinned(file: Option<string>, run: Run)
    requires WellFormed(file) && ValidRun(run)
    ensures WellFormed(After(file, run)) && Words(After(file, run)) == Pinned(Words(file), run)
  {
    if PinOf(file, run.key).None? && run.writes {
      LineAppended(if file.None? then "" else file.value, run.key, run.peer);
    }
  }

  /** The file, and its words, after the first n runs. */
  function FileAfter(file: Option<string>, runs: seq<Run>, n: nat): Option<string>
    requires n <= |runs|
  {
    if n == 0 then file else After(FileAfter(file, runs, n - 1), runs[n - 1])
  }

  function WordsAfter(words: seq<string>, runs: seq<Run>, n: nat): seq<string>
    requires n <= |runs|
  {
    if n == 0 then words else Pinned(WordsAfter(words, runs, n - 1), runs[n - 1])
  }

  lemma {:induction false} FileIsWords(file: Option<string>, runs: seq<Run>, n: nat)
    requires WellFormed(file) && ValidRuns(runs) && n <= |runs|
    ensures WellFormed(FileAfter(file, runs, n))
    ensures Words(FileAfter(file, runs, n)) == WordsAfter(Words(file), runs, n)
  {
    if n > 0 {
      FileIsWords(file, runs, n - 1);
      AfterIsPinned(FileAfter(file, runs, n - 1), runs[n - 1]);
    }
  }

  /** One run pins its own key if it has no pin, and leaves every other key alone. */
  lemma OneRun(words: seq<string>, run: Run, key: string)
    requires |words| % 2 == 0
    ensures var pins := Writer(run, key) && Lookup(words, key).None?;
            && |Pinned(words, run)| % 2 == 0
            && Lookup(Pinned(words, run), key) == (if pins then Some(run.peer) else Lookup(words, key))
            && Entries(Pinned(words, run), key) == Entries(words, key) + (if pins then 1 else 0)
  {
    if Lookup(words, run.key).None? && run.writes {
      LookupAppend(words, [run.key, run.peer], key);
      LookupPair(run.key, run.peer, key);
    }
  }

  lemma LookupPair(a: string, b: string, key: string)
    ensures Lookup([a, b], key) == if a == key then Some(b) else None
    ensures Entries([a, b], key) == if a == key then 1 else 0
  {
  }

  /** A run that could write the pin of this key. */
  predicate Writer(run: Run, key: string) { run.key == key && run.writes }

  /** The peer of the first of n runs that could. */
  function FirstWritten(runs: seq<Run>, n: nat, key: string): Option<string>
    requires n <= |runs|
  {
    if n == 0 then None
    else
      var before := FirstWritten(runs, n - 1, key);
      if before.Some? then before else if Writer(runs[n - 1], key) then Some(runs[n - 1].peer) else None
  }

  lemma {:induction false} FirstWrittenIsFirst(runs: seq<Run>, n: nat, key: string)
    requires n <= |runs|
    ensures match FirstWritten(runs, n, key)
            case None => forall i :: 0 <= i < n ==> !Writer(runs[i], key)
            case Some(peer) =>
              exists i :: 0 <= i < n && Writer(runs[i], key) && runs[i].peer == peer &&
                          forall j :: 0 <= j < i ==> !Writer(runs[j], key)
  {
    if n > 0 {
      FirstWrittenIsFirst(runs, n - 1, key);
    }
  }

  lemma {:induction false} WordsPinned(words: seq<string>, runs: seq<Run>, n: nat, key: string)
    requires |words| % 2 == 0 && n <= |runs|
    ensures var end := WordsAfter(words, runs, n);
            && |end| % 2 == 0
            && Lookup(end, key) == (if Lookup(words, key).Some? then Lookup(words, key) else FirstWritten(runs, n, key))
            && Entries(end, key) == Entries(words, key) +
                                    (if Lookup(words, key).None? && FirstWritten(runs, n, key).Some? then 1 else 0)
  {
    if n > 0 {
      WordsPinned(words, runs, n - 1, key);
      OneRun(WordsAfter(words, runs, n - 1), runs[n - 1], key);
    }
  }

  /** Over any runs: a pin that is there stays; an unpinned key gains one line, with the
      peer of the first run that can write it, and otherwise none. */
  lemma FirstPinStays(file: Option<string>, runs: seq<Run>, n: nat, key: string)
    requires WellFormed(file) && ValidRuns(runs) && n <= |runs|
    ensures var end := FileAfter(file, runs, n);
            && WellFormed(end)
            && PinOf(end, key) == (if PinOf(file, key).Some? then PinOf(file, key) else FirstWritten(runs, n, key))
            && Entries(Words(end), key) == Entries(Words(file), key) +
                                           (if PinOf(file, key).None? && FirstWritten(runs, n, key).Some? then 1 else 0)
  {
    FileIsWords(file, runs, n);
    WordsPinned(Words(file), runs, n, key);
  }

  lemma {:induction false} FirstWrittenStays(runs: seq<Run>, i: nat, j: nat, key: string)
    requires i <= j <= |runs| && FirstWritten(runs, i, key).Some?
    ensures FirstWritten(runs, j, key) == FirstWritten(runs, i, key)
    decreases j - i
  {
    if i < j {
      FirstWrittenStays(runs, i, j - 1, key);
    }
  }

  /** Once a run has reached the chat with its pin on file, a later run for the same relay
      and room reaches the chat exactly when it meets the same fingerprint. */
  lemma SamePeerForEver(file: Option<string>, runs: seq<Run>, i: nat, j: nat)
    requires WellFormed(file) && ValidRuns(runs) && i < j < |runs|
    requires runs[i].key == runs[j].key
    requires Admitted(FileAfter(file, runs, i), runs[i])
    requires PinOf(FileAfter(file, runs, i + 1), runs[i].key).Some?
    ensures Admitted(FileAfter(file, runs, j), runs[j]) <==> runs[j].peer == runs[i].peer
  {
    var key := runs[i].key;
    FirstPinStays(file, runs, i, key);
    FirstPinStays(file, runs, i + 1, key);
    FirstPinStays(file, runs, j, key);
    if PinOf(file, key).None? {
      FirstWrittenStays(runs, i + 1, j, key);
    }
  }

  lemma SavedAppends(file: Option<string>, run: Run)
    ensures file.Some? ==> After(file, run).Some? && file.value <= After(file, run).value
  {
  }

  /** What was on file stays there, in front. */
  lemma {:induction false} OnlyAppended(file: Option<string>, runs: seq<Run>, n: nat)
    requires n <= |runs| && file.Some?
    ensures FileAfter(file, runs, n).Some? && file.value <= FileAfter(file, runs, n).value
  {
    if n > 0 {
      OnlyAppended(file, runs, n - 1);
      SavedAppends(FileAfter(file, runs, n - 1), runs[n - 1]);
    }
  }

  /** Trust on first use: without a pin any peer is admitted, and becomes the pin if the file
      can be written; with one, another peer is turned away and the file is left alone. */
  lemma FirstUseTrusted(file: Option<string>, run: Run)
    requires WellFormed(file) && ValidRun(run)
    ensures PinOf(file, run.key).None? ==>
              && Admitted(file, run)
              && PinOf(After(file, run), run.key) == if run.writes then Some(run.peer) else None
    ensures PinOf(file, run.key).Some? ==>
              && (Admitted(file, run) <==> PinOf(file, run.key).value == run.peer)
              && After(file, run) == file
  {
    AfterIsPinned(file, run);
    OneRun(Words(file), run, run.key);
  }

  // ---- Keys and fingerprints

  /** Two authorities without '#' share a pin only for one authority and one room. */
  lemma PinKeysDiffer(relay: string, room: string, otherRelay: string, otherRoom: string)
    requires '#' !in UrlHost(relay) && '#' !in UrlHost(otherRelay)
    ensures PinKey(relay, room) == PinKey(otherRelay, otherRoom) <==>
            UrlHost(relay) == UrlHost(otherRelay) && room == otherRoom
  {
    CutJoined(UrlHost(relay), '#', room);
    CutJoined(UrlHost(otherRelay), '#', otherRoom);
  }

  /** A fingerprint is always a word. */
  lemma FingerprintIsWord(p: Primitives, pub: Bytes)
    requires DigestLaws(p)
    ensures Word(Fingerprint(p, pub))
  {
    var s := Fingerprint(p, pub);
    assert |s| == 64;
    forall i | 0 <= i < |s| ensures !IsSpace(s[i]) {
      assert s[i] in HEX_DIGITS;
    }
  }
}
