/** src/common/file_config_manager.cpp: key/value lines, comments and nested includes. */
module ConfigParser {

  const NUL: char := '\0'

  /** The readable files by name. */
  type Files = map<string, string>

  type Settings = map<string, string>

  datatype Item = Blank | Setting(key: string, val: string) | Include(file: string)

  /** `Exits` is a repeated key: BOOT_LOG with a non-zero code ends the program. */
  datatype Status = Ok | Unreadable | Exits

  datatype Result = Result(settings: Settings, status: Status)

  // ------------------------------------------------------------ lines, tokens

  predicate IsDelim(c: char) { c == '=' || c == ' ' || c == '\t' }

  /** Position of the first `c` in `s`, or its length. */
  function Find(s: string, c: char): (k: nat)
    ensures k <= |s|
    ensures forall i :: 0 <= i < k ==> s[i] != c
    ensures k < |s| ==> s[k] == c
  {
    if s == [] then 0 else if s[0] == c then 0 else 1 + Find(s[1..], c)
  }

  /** The lines of a file; the last one need not end in a line feed. */
  function Lines(s: string): seq<string>
    decreases |s|
  {
    if s == [] then []
    else
      var k := Find(s, '\n');
      if k == |s| then [s] else [s[..k]] + Lines(s[k + 1..])
  }

  function SkipDelims(s: string): (k: nat)
    ensures k <= |s|
    ensures forall i :: 0 <= i < k ==> IsDelim(s[i])
    ensures k < |s| ==> !IsDelim(s[k])
  {
    if s == [] || !IsDelim(s[0]) then 0 else 1 + SkipDelims(s[1..])
  }

  function TokenLength(s: string): (k: nat)
    ensures k <= |s|
    ensures forall i :: 0 <= i < k ==> !IsDelim(s[i])
    ensures k < |s| ==> IsDelim(s[k])
  {
    if s == [] || IsDelim(s[0]) then 0 else 1 + TokenLength(s[1..])
  }

  datatype Token = NoToken | Token(text: string, rest: string)

  /** What follows the token at the front of `t`, past the delimiter that ends it. */
  function AfterToken(t: string): string {
    var k := TokenLength(t);
    if k == |t| then [] else t[k + 1..]
  }

  /** One strtok call on `s`. */
  function NextToken(s: string): Token {
    var t := s[SkipDelims(s)..];
    if t == [] then NoToken else Token(t[..TokenLength(t)], AfterToken(t))
  }

  function ParseLine(line: string): Item {
    if line != [] && line[0] == '#' then Blank
    else
      var key := NextToken(line);
      if key.NoToken? then Blank
      else
        var val := NextToken(key.rest);
        if val.NoToken? then Blank
        else if key.text == "include" then Include(val.text)
        else Setting(key.text, val.text)
  }

  function ParseLines(l: seq<string>): (r: seq<Item>)
    ensures |r| == |l|
  {
    seq(|l|, i requires 0 <= i < |l| => ParseLine(l[i]))
  }

  /** The parsed lines of a file, one item a line. */
  function Items(content: string): seq<Item> {
    ParseLines(Lines(content))
  }

  lemma ParseLinesCons(line: string, l: seq<string>)
    ensures ParseLines([line] + l) == [ParseLine(line)] + ParseLines(l)
  {
    hide ParseLine;
  }

  lemma ItemsUnfold(content: string)
    requires content != []
    ensures var k := Find(content, '\n');
      Items(content) ==
        [ParseLine(content[..k])] + Items(if k == |content| then [] else content[k + 1..])
  {
    hide ParseLine, ParseLines;
    var k := Find(content, '\n');
    var rest := if k == |content| then [] else content[k + 1..];
    assert content[..|content|] == content;
    assert Lines(content) == [content[..k]] + Lines(rest);
    ParseLinesCons(content[..k], Lines(rest));
  }

  // ------------------------------------------------------- what a line means

  ghost predicate Delimiters(s: string) {
    forall i :: 0 <= i < |s| ==> s[i] == '=' || s[i] == ' ' || s[i] == '\t'
  }

  ghost predicate Word(s: string) {
    s != [] && forall i :: 0 <= i < |s| ==> s[i] != '=' && s[i] != ' ' && s[i] != '\t'
  }

  /** Two words with delimiters before and between them, and anything past a delimiter after. */
  ghost predicate TwoWords(line: string, d0: string, key: string, d1: string, val: string, tail: string) {
    && line == d0 + key + d1 + val + tail
    && Delimiters(d0) && Word(key) && Delimiters(d1) && d1 != [] && Word(val)
    && (tail == [] || Delimiters(tail[..1]))
  }

  /** No word, or one and nothing but delimiters around it. */
  ghost predicate FewWords(line: string, d0: string, key: string, d1: string) {
    line == d0 + key + d1 && Delimiters(d0) && (key == [] || Word(key)) && Delimiters(d1)
  }

  lemma FirstWord(d: string, w: string, tail: string)
    requires Delimiters(d) && Word(w) && (tail == [] || Delimiters(tail[..1]))
    ensures NextToken(d + w + tail) == Token(w, if tail == [] then [] else tail[1..])
  {
    var s := d + w + tail;
    SkipIs(s, |d|);
    var t := s[|d|..];
    assert t == w + tail;
    assert tail != [] ==> t[|w|] == tail[..1][0];
    LengthIs(t, |w|);
  }

  lemma NoWord(d: string)
    requires Delimiters(d)
    ensures NextToken(d) == NoToken
  {
    SkipIs(d, |d|);
  }

  /** The first two words of a line are a setting, or an include when the first is `include`. */
  lemma TwoWordLine(line: string, d0: string, key: string, d1: string, val: string, tail: string)
    requires TwoWords(line, d0, key, d1, val, tail) && line[0] != '#'
    ensures ParseLine(line) == if key == "include" then Include(val) else Setting(key, val)
  {
    Regrouped(d0, key, d1, val, tail);
    assert Delimiters((d1 + val + tail)[..1]);
    hide Word, Delimiters, NextToken;
    FirstWord(d0, key, d1 + val + tail);
    FirstWord(d1[1..], val, tail);
  }

  lemma Regrouped(d0: string, key: string, d1: string, val: string, tail: string)
    requires d1 != []
    ensures d0 + key + d1 + val + tail == d0 + key + (d1 + val + tail)
    ensures (d1 + val + tail)[1..] == d1[1..] + val + tail && (d1 + val + tail)[0] == d1[0]
    ensures Delimiters(d1) ==> Delimiters(d1[1..])
  {
  }

  /** A comment, or a line of fewer than two words, is nothing. */
  lemma BlankLine(line: string, d0: string, key: string, d1: string)
    requires (line != [] && line[0] == '#') || FewWords(line, d0, key, d1)
    ensures ParseLine(line) == Blank
  {
    if FewWords(line, d0, key, d1) {
      if key == [] {
        assert line == d0 + d1;
        NoWord(line);
      } else {
        assert d1 != [] ==> Delimiters(d1[..1]);
        FirstWord(d0, key, d1);
        NoWord(if d1 == [] then [] else d1[1..]);
      }
    }
  }

  /** The delimiters at the front of a text, the word after them, and what is left. */
  lemma FrontWord(s: string) returns (d: string, w: string, rest: string)
    ensures s == d + w + rest && Delimiters(d) && (w == [] || Word(w))
    ensures w == [] ==> rest == []
    ensures rest == [] || Delimiters(rest[..1])
  {
    var a := SkipDelims(s);
    var t := s[a..];
    var b := TokenLength(t);
    d, w, rest := s[..a], t[..b], t[b..];
    assert rest != [] ==> rest[..1] == [t[b]];
  }

  lemma FirstOf(d: string, w: string, tail: string)
    requires w != []
    ensures (d + w + tail)[0] == if d != [] then d[0] else w[0]
  {
  }

  /** Every line is one of those two, so with comments this is what every line means. */
  lemma EveryLine(line: string) returns (d0: string, key: string, d1: string, val: string, tail: string)
    ensures TwoWords(line, d0, key, d1, val, tail) || FewWords(line, d0, key, d1)
  {
    var rest;
    d0, key, rest := FrontWord(line);
    d1, val, tail := FrontWord(rest);
    if val == [] {
      assert rest == d1;
    } else {
      FirstOf(d1, val, tail);
      assert rest[..1] == [rest[0]];
      assert line == d0 + key + d1 + val + tail;
    }
  }

  /** The lines of a text: up to the first line feed, and then those of the rest. */
  lemma FirstLine(line: string, rest: string)
    requires '\n' !in line
    ensures Items(line + "\n" + rest) == [ParseLine(line)] + Items(rest)
    ensures line != [] ==> Items(line) == [ParseLine(line)]
  {
    var s := line + "\n" + rest;
    FindIs(s, '\n', |line|);
    ItemsUnfold(s);
    assert s[..|line|] == line && s[|line| + 1..] == rest;
    if line != [] {
      FindIs(line, '\n', |line|);
      ItemsUnfold(line);
      assert line[..|line|] == line;
      assert Items([]) == [];
    }
  }

  // --------------------------------------------------------- recursive parser

  /** Includes lead to files of lower rank, so no file includes itself, directly or not. */
  ghost predicate Acyclic(files: Files, rank: map<string, nat>) {
    forall f :: f in files ==> f in rank && IncludesBelow(Items(files[f]), files, rank, rank[f])
  }

  ghost predicate IncludesBelow(items: seq<Item>, files: Files, rank: map<string, nat>, bound: nat) {
    forall i :: 0 <= i < |items| && items[i].Include? && items[i].file in files ==>
      items[i].file in rank && rank[items[i].file] < bound
  }

  ghost function Rank(file: string, files: Files, rank: map<string, nat>): nat {
    if file in files && file in rank then rank[file] + 1 else 0
  }

  /** ParseConfigFile, adding to the settings it is given. */
  ghost function ParseFile(files: Files, rank: map<string, nat>, file: string, m: Settings): Result
    requires Acyclic(files, rank)
    decreases Rank(file, files, rank), 0
  {
    if file !in files then Result(m, Unreadable)
    else ParseItems(files, rank, Items(files[file]), rank[file], m)
  }

  ghost function ParseItems(files: Files, rank: map<string, nat>, items: seq<Item>, bound: nat, m: Settings): Result
    requires Acyclic(files, rank) && IncludesBelow(items, files, rank, bound)
    decreases bound, |items| + 1
  {
    if items == [] then Result(m, Ok)
    else
      match items[0]
      case Blank => ParseItems(files, rank, items[1..], bound, m)
      case Setting(k, v) =>
        if k in m then Result(m, Exits)
        else ParseItems(files, rank, items[1..], bound, m[k := v])
      case Include(f) =>
        var r := ParseFile(files, rank, f, m);
        if r.status != Ok then r
        else ParseItems(files, rank, items[1..], bound, r.settings)
  }

  // ----------------------------------------------------------- flat reference

  datatype Flat = Assign(key: string, val: string) | Missing

  /** A file with every include replaced by the included file's own expansion. */
  ghost function Expand(files: Files, rank: map<string, nat>, file: string): seq<Flat>
    requires Acyclic(files, rank)
    decreases Rank(file, files, rank), 0
  {
    if file !in files then [Missing]
    else ExpandItems(files, rank, Items(files[file]), rank[file])
  }

  ghost function ExpandItems(files: Files, rank: map<string, nat>, items: seq<Item>, bound: nat): seq<Flat>
    requires Acyclic(files, rank) && IncludesBelow(items, files, rank, bound)
    decreases bound, |items| + 1
  {
    if items == [] then []
    else
      (match items[0]
       case Blank => []
       case Setting(k, v) => [Assign(k, v)]
       case Include(f) => Expand(files, rank, f))
      + ExpandItems(files, rank, items[1..], bound)
  }

  /** One pass over settings in order. */
  function OnePass(flat: seq<Flat>, m: Settings): Result {
    if flat == [] then Result(m, Ok)
    else
      match flat[0]
      case Missing => Result(m, Unreadable)
      case Assign(k, v) => if k in m then Result(m, Exits) else OnePass(flat[1..], m[k := v])
  }

  lemma {:induction false} OnePassConcat(a: seq<Flat>, b: seq<Flat>, m: Settings)
    ensures OnePass(a + b, m) ==
      (var r := OnePass(a, m); if r.status == Ok then OnePass(b, r.settings) else r)
  {
    if a == [] {
      assert a + b == b;
    } else {
      assert (a + b)[1..] == a[1..] + b;
      match a[0]
      case Missing =>
      case Assign(k, v) => OnePassConcat(a[1..], b, m[k := v]);
    }
  }

  /** The recursive parser is one pass over the expansion: same settings, same outcome, and
      on a failure the same settings kept so far. */
  lemma {:induction false} ParseIsOnePass(files: Files, rank: map<string, nat>, file: string, m: Settings)
    requires Acyclic(files, rank)
    ensures ParseFile(files, rank, file, m) == OnePass(Expand(files, rank, file), m)
    decreases Rank(file, files, rank), 0
  {
    if file in files {
      ItemsAreOnePass(files, rank, Items(files[file]), rank[file], m);
    }
  }

  lemma {:induction false} ItemsAreOnePass(files: Files, rank: map<string, nat>, items: seq<Item>, bound: nat, m: Settings)
    requires Acyclic(files, rank) && IncludesBelow(items, files, rank, bound)
    ensures ParseItems(files, rank, items, bound, m) == OnePass(ExpandItems(files, rank, items, bound), m)
    decreases bound, |items| + 1
  {
    if items != [] {
      var rest := ExpandItems(files, rank, items[1..], bound);
      match items[0]
      case Blank =>
        assert ExpandItems(files, rank, items, bound) == rest;
        ItemsAreOnePass(files, rank, items[1..], bound, m);
      case Setting(k, v) =>
        assert ([Assign(k, v)] + rest)[1..] == rest;
        if k !in m { ItemsAreOnePass(files, rank, items[1..], bound, m[k := v]); }
      case Include(f) =>
        ParseIsOnePass(files, rank, f, m);
        OnePassConcat(Expand(files, rank, f), rest, m);
        var r := ParseFile(files, rank, f, m);
        if r.status == Ok { ItemsAreOnePass(files, rank, items[1..], bound, r.settings); }
    }
  }

  ghost predicate Clean(flat: seq<Flat>, m: Settings) {
    && (forall i :: 0 <= i < |flat| ==> flat[i].Assign? && flat[i].key !in m)
    && (forall i, j :: 0 <= i < j < |flat| ==> flat[i].Assign? && flat[j].Assign? && flat[i].key != flat[j].key)
  }

  /** A pass succeeds iff every file was readable and no key repeats, and then it adds exactly
      the settings of the lines. */
  lemma {:induction false} OnePassOkIff(flat: seq<Flat>, m: Settings)
    ensures OnePass(flat, m).status == Ok <==> Clean(flat, m)
    ensures Clean(flat, m) ==>
      var t := OnePass(flat, m).settings;
      && (forall k :: k in m ==> k in t && t[k] == m[k])
      && (forall i :: 0 <= i < |flat| ==> flat[i].key in t && t[flat[i].key] == flat[i].val)
      && (forall k :: k in t ==> k in m || exists i :: 0 <= i < |flat| && flat[i].key == k)
  {
    if flat != [] && flat[0].Assign? && flat[0].key !in m {
      var k, v, rest := flat[0].key, flat[0].val, flat[1..];
      var m' := m[k := v];
      OnePassOkIff(rest, m');
      assert forall i :: 1 <= i < |flat| ==> flat[i] == rest[i - 1];
      assert forall i :: 0 <= i < |rest| ==> rest[i] == flat[i + 1];
      if Clean(flat, m) {
        assert Clean(rest, m');
        var t := OnePass(flat, m).settings;
        assert t[k] == m'[k];
        forall x | x in t && x !in m
          ensures exists i :: 0 <= i < |flat| && flat[i].key == x
        {
          if x == k {
            assert flat[0].key == x;
          } else {
            var i :| 0 <= i < |rest| && rest[i].key == x;
            assert flat[i + 1].key == x;
          }
        }
      }
      if Clean(rest, m') {
        assert Clean(flat, m);
      }
    }
  }

  // ---------------------------------------------------------- line by line

  /** Parsing the text of a file from some point on. */
  ghost function ParseText(files: Files, rank: map<string, nat>, text: string, bound: nat, m: Settings): Result
    requires Acyclic(files, rank) && IncludesBelow(Items(text), files, rank, bound)
  {
    ParseItems(files, rank, Items(text), bound, m)
  }

  lemma ConsBelow(item: Item, items: seq<Item>, files: Files, rank: map<string, nat>, bound: nat)
    requires IncludesBelow([item] + items, files, rank, bound)
    ensures IncludesBelow(items, files, rank, bound)
  {
    assert forall i :: 0 <= i < |items| ==> items[i] == ([item] + items)[i + 1];
  }

  /** A line of two words adds its setting, or ends the program if the key is there already;
      after `include` the file named is parsed first, and a failure there is the outcome. */
  lemma SettingThenRest(files: Files, rank: map<string, nat>, line: string, d0: string, key: string, d1: string,
                        val: string, tail: string, rest: string, bound: nat, m: Settings)
    requires TwoWords(line, d0, key, d1, val, tail) && line[0] != '#' && '\n' !in line
    requires Acyclic(files, rank) && IncludesBelow(Items(line + "\n" + rest), files, rank, bound)
    ensures IncludesBelow(Items(rest), files, rank, bound)
    ensures ParseText(files, rank, line + "\n" + rest, bound, m) ==
      if key == "include" then
        (var r := ParseFile(files, rank, val, m);
         if r.status == Ok then ParseText(files, rank, rest, bound, r.settings) else r)
      else if key in m then Result(m, Exits)
      else ParseText(files, rank, rest, bound, m[key := val])
  {
    TwoWordLine(line, d0, key, d1, val, tail);
    FirstLine(line, rest);
    hide Items, ParseLine;
    ConsBelow(ParseLine(line), Items(rest), files, rank, bound);
    assert ([ParseLine(line)] + Items(rest))[1..] == Items(rest);
  }

  /** A comment or a line of fewer than two words makes no difference. */
  lemma BlankThenRest(files: Files, rank: map<string, nat>, line: string, d0: string, key: string, d1: string,
                      rest: string, bound: nat, m: Settings)
    requires (line != [] && line[0] == '#') || FewWords(line, d0, key, d1)
    requires '\n' !in line
    requires Acyclic(files, rank) && IncludesBelow(Items(line + "\n" + rest), files, rank, bound)
    ensures IncludesBelow(Items(rest), files, rank, bound)
    ensures ParseText(files, rank, line + "\n" + rest, bound, m) == ParseText(files, rank, rest, bound, m)
  {
    BlankLine(line, d0, key, d1);
    FirstLine(line, rest);
    hide Items, ParseLine;
    ConsBelow(ParseLine(line), Items(rest), files, rank, bound);
    assert ([ParseLine(line)] + Items(rest))[1..] == Items(rest);
  }

  /** A file is the text it holds, with or without a line feed at its end; an empty one adds
      nothing and one that cannot be read fails. */
  lemma FileIsItsText(files: Files, rank: map<string, nat>, file: string, m: Settings)
    requires Acyclic(files, rank)
    ensures file !in files ==> ParseFile(files, rank, file, m) == Result(m, Unreadable)
    ensures file in files ==>
      && IncludesBelow(Items(files[file]), files, rank, rank[file])
      && ParseFile(files, rank, file, m) == ParseText(files, rank, files[file], rank[file], m)
      && (files[file] == [] ==> ParseFile(files, rank, file, m) == Result(m, Ok))
      && (files[file] != [] && '\n' !in files[file] ==>
            Items(files[file]) == Items(files[file] + "\n"))
  {
    if file in files {
      var s := files[file];
      if s != [] && '\n' !in s {
        FirstLine(s, "");
        assert s + "\n" + "" == s + "\n";
        assert Items("") == [];
      }
    }
  }

  /** A file of one line of two words gives that one setting. */
  lemma OneLineFile(files: Files, rank: map<string, nat>, file: string, d0: string, key: string, d1: string,
                    val: string, tail: string, m: Settings)
    requires Acyclic(files, rank) && file in files
    requires TwoWords(files[file], d0, key, d1, val, tail) && files[file][0] != '#' && '\n' !in files[file]
    ensures ParseFile(files, rank, file, m) ==
      if key == "include" then ParseFile(files, rank, val, m)
      else if key in m then Result(m, Exits)
      else Result(m[key := val], Ok)
  {
    var line := files[file];
    TwoWordLine(line, d0, key, d1, val, tail);
    FirstLine(line, "");
    NoItems();
    assert [ParseLine(line)] + Items([]) == [ParseLine(line)];
    hide Items, ParseLine, TwoWords;
    OneItem(files, rank, ParseLine(line), rank[file], m);
  }

  lemma OneItem(files: Files, rank: map<string, nat>, item: Item, bound: nat, m: Settings)
    requires Acyclic(files, rank) && IncludesBelow([item], files, rank, bound)
    ensures ParseItems(files, rank, [item], bound, m) ==
      match item
      case Blank => Result(m, Ok)
      case Setting(k, v) => if k in m then Result(m, Exits) else Result(m[k := v], Ok)
      case Include(f) => ParseFile(files, rank, f, m)
  {
    hide Items, ParseFile, Acyclic;
    assert [item][1..] == [];
    assert ParseItems(files, rank, [], bound, m) == Result(m, Ok);
  }

  // -------------------------------------------------------------- C buffers

  /** The text at `start`, up to the terminating zero at `stop`. */
  ghost predicate Text(data: array<char>, start: int, stop: int, s: string)
    reads data
  {
    && 0 <= start <= stop < data.Length && data[stop] == NUL
    && data[start..stop] == s && NUL !in s
  }

  /** strchr: the position of `c`, or of the terminating zero. */
  method StrChr(data: array<char>, start: nat, c: char, ghost stop: nat, ghost s: string) returns (pos: nat)
    requires Text(data, start, stop, s) && c != NUL
    ensures pos == start + Find(s, c)
  {
    pos := start;
    while data[pos] != NUL && data[pos] != c
      invariant start <= pos <= stop
      invariant forall i :: start <= i < pos ==> data[i] != c
      decreases stop - pos
    {
      assert data[pos] == s[pos - start];
      pos := pos + 1;
    }
    assert forall i :: 0 <= i < |s| ==> s[i] == data[start + i];
    FindIs(s, c, pos - start);
  }

  lemma FindIs(s: string, c: char, k: nat)
    requires k <= |s| && (forall i :: 0 <= i < k ==> s[i] != c) && (k < |s| ==> s[k] == c)
    ensures Find(s, c) == k
  {
  }

  /** strspn over the delimiters. */
  method SkipFrom(data: array<char>, start: nat, ghost stop: nat, ghost s: string) returns (b: nat)
    requires Text(data, start, stop, s)
    ensures b == start + SkipDelims(s)
  {
    b := start;
    while data[b] != NUL && IsDelim(data[b])
      invariant start <= b <= stop
      invariant forall i :: start <= i < b ==> IsDelim(data[i])
      decreases stop - b
    {
      b := b + 1;
    }
    assert forall i :: 0 <= i < |s| ==> s[i] == data[start + i];
    SkipIs(s, b - start);
  }

  /** strcspn over the delimiters. */
  method TokenStop(data: array<char>, start: nat, ghost stop: nat, ghost s: string) returns (e: nat)
    requires Text(data, start, stop, s)
    ensures e == start + TokenLength(s)
  {
    e := start;
    while data[e] != NUL && !IsDelim(data[e])
      invariant start <= e <= stop
      invariant forall i :: start <= i < e ==> !IsDelim(data[i])
      decreases stop - e
    {
      e := e + 1;
    }
    assert forall i :: 0 <= i < |s| ==> s[i] == data[start + i];
    LengthIs(s, e - start);
  }

  lemma TextSuffix(data: array<char>, start: nat, stop: nat, s: string, k: nat)
    requires Text(data, start, stop, s) && k <= |s|
    ensures Text(data, start + k, stop, s[k..]) && start + |s| == stop < data.Length
    ensures data[start + k] == NUL <==> k == |s|
    ensures data[start..start + k] == s[..k]
  {
    assert s[k..] == data[start + k..stop];
    assert k < |s| ==> s[k] == data[start + k];
  }

  /** Ending a string at `e` leaves the text after it alone. */
  method Terminate(data: array<char>, e: nat, ghost stop: nat, ghost rest: string)
    requires Text(data, e + 1, stop, rest)
    modifies data
    ensures Text(data, e + 1, stop, rest)
    ensures forall i :: 0 <= i < data.Length && i != e ==> data[i] == old(data[i])
    ensures data[e] == NUL
  {
    data[e] := NUL;
    assert data[e + 1..stop] == old(data[e + 1..stop]);
  }

  /** The second half of strtok: the token at the front of the text is ended by a zero. */
  method CutToken(data: array<char>, b: nat, ghost stop: nat, ghost t: string) returns (text: string, next: nat)
    requires Text(data, b, stop, t)
    modifies data
    ensures text == t[..TokenLength(t)] && b <= next && Text(data, next, stop, AfterToken(t))
    ensures forall i :: 0 <= i < data.Length && !(b <= i < stop) ==> data[i] == old(data[i])
  {
    hide Text, TokenLength;
    var e := TokenStop(data, b, stop, t);
    ghost var k := TokenLength(t);
    TextSuffix(data, b, stop, t, k);
    text, next := data[b..e], e;
    if data[e] != NUL {
      TextSuffix(data, b, stop, t, k + 1);
      Terminate(data, e, stop, t[k + 1..]);
      next := e + 1;
    } else {
      assert t[k..] == [];
    }
  }

  /** strtok: cuts one token out of the buffer with a zero; `next` is the saved pointer. */
  method StrTok(data: array<char>, start: nat, ghost stop: nat, ghost s: string)
    returns (found: bool, text: string, next: nat)
    requires Text(data, start, stop, s)
    modifies data
    ensures found <==> NextToken(s).Token?
    ensures found ==> text == NextToken(s).text && start <= next && Text(data, next, stop, NextToken(s).rest)
    ensures forall i :: 0 <= i < data.Length && !(start <= i < stop) ==> data[i] == old(data[i])
  {
    hide Text, SkipDelims, TokenLength, AfterToken;
    var b := SkipFrom(data, start, stop, s);
    TextSuffix(data, start, stop, s, SkipDelims(s));
    if data[b] == NUL { return false, "", b; }
    text, next := CutToken(data, b, stop, s[SkipDelims(s)..]);
    found := true;
  }

  lemma SkipIs(s: string, k: nat)
    requires k <= |s| && (forall i :: 0 <= i < k ==> IsDelim(s[i])) && (k < |s| ==> !IsDelim(s[k]))
    ensures SkipDelims(s) == k
  {
  }

  lemma LengthIs(s: string, k: nat)
    requires k <= |s| && (forall i :: 0 <= i < k ==> !IsDelim(s[i])) && (k < |s| ==> IsDelim(s[k]))
    ensures TokenLength(s) == k
  {
  }

  ghost predicate NoZeros(files: Files) {
    forall f :: f in files ==> NUL !in files[f]
  }

  /** One line in the buffer: a comment, or at most two strtok calls. */
  method ReadLine(data: array<char>, start: nat, ghost stop: nat, ghost line: string) returns (item: Item)
    requires Text(data, start, stop, line)
    modifies data
    ensures item == ParseLine(line)
    ensures forall i :: 0 <= i < data.Length && !(start <= i < stop) ==> data[i] == old(data[i])
  {
    FirstChar(data, start, stop, line);
    hide Text, NextToken;
    item := Blank;
    if data[start] == '#' { return; }
    var found, key, next := StrTok(data, start, stop, line);
    if !found { return; }
    var found', val, next' := StrTok(data, next, stop, NextToken(line).rest);
    if !found' { return; }
    item := if key == "include" then Include(val) else Setting(key, val);
  }

  lemma FirstChar(data: array<char>, start: nat, stop: nat, line: string)
    requires Text(data, start, stop, line)
    ensures start < data.Length && (data[start] == '#' <==> line != [] && line[0] == '#')
  {
    assert line != [] ==> line[0] == data[start];
  }

  /** Ends the line at `start` with a zero; `more` tells whether another line follows. */
  method CutLine(data: array<char>, start: nat, ghost stop: nat, ghost rest: string) returns (end: nat, more: bool)
    requires Text(data, start, stop, rest)
    modifies data
    ensures end == start + Find(rest, '\n') && start <= end <= stop
    ensures more <==> Find(rest, '\n') < |rest|
    ensures Text(data, start, end, rest[..Find(rest, '\n')])
    ensures more ==> end < stop && Text(data, end + 1, stop, rest[Find(rest, '\n') + 1..])
  {
    end := StrChr(data, start, '\n', stop, rest);
    ghost var k := Find(rest, '\n');
    assert rest[..k] == data[start..end];
    assert k < |rest| ==> rest[k + 1..] == data[end + 1..stop];
    more := data[end] != NUL;
    assert k < |rest| ==> rest[k] == data[end];
    if more {
      data[end] := NUL;
      assert data[start..end] == old(data[start..end]) && data[end + 1..stop] == old(data[end + 1..stop]);
    }
  }

  lemma TextKept(data: array<char>, before: seq<char>, start: nat, stop: nat, s: string)
    requires |before| == data.Length && 0 <= start <= stop < data.Length
    requires before[stop] == NUL && before[start..stop] == s && NUL !in s
    requires forall i :: start <= i <= stop ==> data[i] == before[i]
    ensures Text(data, start, stop, s)
  {
    assert data[start..stop] == before[start..stop];
  }

  /** The line at `start` is cut and read; the text after it is as it was. */
  method TakeLine(data: array<char>, start: nat, ghost stop: nat, ghost rest: string)
    returns (item: Item, end: nat, more: bool)
    requires Text(data, start, stop, rest)
    modifies data
    ensures end == start + Find(rest, '\n') <= stop
    ensures more <==> Find(rest, '\n') < |rest|
    ensures item == ParseLine(rest[..Find(rest, '\n')])
    ensures more ==> end < stop && Text(data, end + 1, stop, rest[Find(rest, '\n') + 1..])
  {
    end, more := CutLine(data, start, stop, rest);
    ghost var before := data[..];
    item := ReadLine(data, start, end, rest[..Find(rest, '\n')]);
    if more {
      TextKept(data, before, end + 1, stop, rest[Find(rest, '\n') + 1..]);
    }
  }

  /** The file read into a buffer with a zero after it. */
  method ReadFile(content: string) returns (data: array<char>, len: nat)
    requires NUL !in content
    ensures fresh(data) && len == |content| && Text(data, 0, len, content)
  {
    len := |content|;
    data := new char[len + 1](i => if 0 <= i < len then content[i] else NUL);
    assert data[0..len] == content;
  }

  /** ParseConfigFile. The settings come in and go out as a value; `rank` bears witness that
      the includes of `files` do not go round in a circle. */
  method ParseConfigFile(files: Files, file: string, m: Settings, ghost rank: map<string, nat>)
    returns (settings: Settings, status: Status)
    requires Acyclic(files, rank) && NoZeros(files)
    ensures Result(settings, status) == ParseFile(files, rank, file, m)
    decreases Rank(file, files, rank)
  {
    settings, status := m, Ok;
    if file !in files { return m, Unreadable; }
    BelowFile(files, rank, file);
    ZeroFree(files, file);
    hide Text, ParseLine, Items, Find, Acyclic, IncludesBelow, NoZeros;
    var content := files[file];
    var data, len := ReadFile(content);
    var start := 0;
    ghost var rest, bound := content, rank[file];
    NoItems();
    while start < len
      invariant 0 <= start && (start < len ==> Text(data, start, len, rest))
      invariant (start < len <==> rest != []) && status == Ok
      invariant IncludesBelow(Items(rest), files, rank, bound)
      invariant ParseItems(files, rank, Items(content), bound, m) == ParseItems(files, rank, Items(rest), bound, settings)
      decreases |rest|
    {
      ghost var k := Find(rest, '\n');
      ghost var items := Items(rest);
      ItemsUnfold(rest);
      var item, end, more := TakeLine(data, start, len, rest);
      rest := if more then rest[k + 1..] else [];
      assert items[0] == item && items[1..] == Items(rest);
      BelowTail(items, files, rank, bound);
      match item {
        case Blank =>
        case Setting(key, val) =>
          if key in settings { return settings, Exits; }
          settings := settings[key := val];
        case Include(f) =>
          settings, status := ParseConfigFile(files, f, settings, rank);
          if status != Ok { return; }
      }
      start := if more then end + 1 else len;
    }
  }

  lemma BelowFile(files: Files, rank: map<string, nat>, file: string)
    requires Acyclic(files, rank) && file in files
    ensures file in rank && IncludesBelow(Items(files[file]), files, rank, rank[file])
  {
  }

  lemma ZeroFree(files: Files, file: string)
    requires NoZeros(files) && file in files
    ensures NUL !in files[file]
  {
  }

  lemma NoItems()
    ensures Items([]) == []
  {
  }

  lemma BelowTail(items: seq<Item>, files: Files, rank: map<string, nat>, bound: nat)
    requires items != [] && IncludesBelow(items, files, rank, bound)
    ensures IncludesBelow(items[1..], files, rank, bound)
    ensures items[0].Include? && items[0].file in files ==> items[0].file in rank && rank[items[0].file] < bound
  {
  }

  class FileConfigManager {
    var configMap: Settings
    var loaded: bool

    constructor ()
      ensures configMap == map[] && !loaded
    {
      configMap, loaded := map[], false;
    }

    /** LoadConfig: the old settings go first, so a failure leaves what was read before it. */
    method LoadConfig(files: Files, source: string, ghost rank: map<string, nat>) returns (status: Status)
      requires Acyclic(files, rank) && NoZeros(files)
      modifies this
      ensures Result(configMap, status) == OnePass(Expand(files, rank, source), map[])
      ensures loaded == (old(loaded) || status == Ok)
    {
      ParseIsOnePass(files, rank, source, map[]);
      configMap := map[];
      configMap, status := ParseConfigFile(files, source, configMap, rank);
      if status == Ok { loaded := true; }
    }

    /** ReloadConfig: a failure changes nothing. */
    method ReloadConfig(files: Files, source: string, ghost rank: map<string, nat>) returns (status: Status)
      requires Acyclic(files, rank) && NoZeros(files)
      modifies this`configMap
      ensures status == OnePass(Expand(files, rank, source), map[]).status
      ensures status == Ok ==> configMap == OnePass(Expand(files, rank, source), map[]).settings
      ensures status != Ok ==> configMap == old(configMap)
    {
      ParseIsOnePass(files, rank, source, map[]);
      var settings, st := ParseConfigFile(files, source, map[], rank);
      status := st;
      if status == Ok { configMap := settings; }
    }

    /** ConfigGetStrVal. */
    function GetStrVal(key: string, default: string): (r: string)
      reads this
      ensures key !in configMap ==> r == default
      ensures key in configMap ==> r == configMap[key]
    {
      if key in configMap then configMap[key] else default
    }
  }
}
