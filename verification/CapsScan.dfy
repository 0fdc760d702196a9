/** How the top-level comma splitter and the field reader take printed text apart. */
module CapsScan {
  import opened Options
  import opened Strings
  import opened CapsPrinter
  import opened CapsParser
  import opened CapsNames

  // ----- scanning -----

  ghost function Run(st: Scan, s: string): Scan
    decreases |s|
  {
    if s == [] then st else Run(Next(st, s[0]), s[1..])
  }

  /** Scanned from `st`, no comma of `s` is a cut. */
  ghost predicate NoCut(st: Scan, s: string)
    decreases |s|
  {
    s == [] || (!Cuts(st, s[0]) && NoCut(Next(st, s[0]), s[1..]))
  }

  /** One part of a description: nothing in it is cut, and the scanner ends at the top. */
  ghost predicate Solid(s: string) {
    NoCut(TOP, s) && Run(TOP, s) == TOP
  }

  lemma {:induction false} RunConcat(st: Scan, a: string, b: string)
    ensures Run(st, a + b) == Run(Run(st, a), b)
    ensures NoCut(st, a + b) <==> NoCut(st, a) && NoCut(Run(st, a), b)
    decreases |a|
  {
    if a == [] {
      assert a + b == b;
    } else {
      assert (a + b)[1..] == a[1..] + b;
      RunConcat(Next(st, a[0]), a[1..], b);
    }
  }

  lemma RunOne(st: Scan, c: char)
    ensures Run(st, [c]) == Next(st, c)
    ensures NoCut(st, [c]) <==> !Cuts(st, c)
  {
    assert Run(Next(st, c), [c][1..]) == Next(st, c);
  }

  lemma {:induction false} PlainRuns(st: Scan, s: string)
    requires Plain(s)
    ensures Run(st, s) == st && NoCut(st, s)
    decreases |s|
  {
    if s != [] {
      assert PlainChar(s[0]);
      PlainRuns(st, s[1..]);
    }
  }

  lemma PlainIsSolid(s: string)
    requires Plain(s)
    ensures Solid(s)
  {
    PlainRuns(TOP, s);
  }

  lemma SolidConcat(a: string, b: string)
    requires Solid(a) && Solid(b)
    ensures Solid(a + b)
  {
    RunConcat(TOP, a, b);
  }

  /** Quoted text hides everything but its own quotes. */
  lemma {:induction false} QuotedRuns(d: int, s: string)
    requires '"' !in s
    ensures Run(Scan(d, true), s) == Scan(d, true) && NoCut(Scan(d, true), s)
    decreases |s|
  {
    if s != [] {
      QuotedRuns(d, s[1..]);
    }
  }

  // ----- splitting -----

  lemma {:induction false} SplitNoCut(a: string, b: string, st: Scan, cur: string)
    requires NoCut(st, a)
    ensures SplitFrom(a + b, st, cur) == SplitFrom(b, Run(st, a), cur + a)
    decreases |a|
  {
    if a == [] {
      assert a + b == b && cur + a == cur;
    } else {
      assert (a + b)[0] == a[0] && (a + b)[1..] == a[1..] + b;
      SplitNoCut(a[1..], b, Next(st, a[0]), cur + [a[0]]);
      assert cur + [a[0]] + a[1..] == cur + a;
    }
  }

  /** Text that is never cut is one part, whatever state it ends in. */
  lemma SplitWhole(a: string)
    requires NoCut(TOP, a)
    ensures SplitTop(a) == [a]
  {
    SplitNoCut(a, [], TOP, []);
    assert a + [] == a && [] + a == a;
  }

  lemma SplitComma(a: string, rest: string)
    requires Solid(a)
    ensures SplitTop(a + "," + rest) == [a] + SplitTop(rest)
  {
    assert a + "," + rest == a + ("," + rest);
    SplitNoCut(a, "," + rest, TOP, []);
    assert [] + a == a;
    assert ("," + rest)[0] == ',' && ("," + rest)[1..] == rest;
  }

  ghost predicate AllSolid(parts: seq<string>) {
    forall i :: 0 <= i < |parts| ==> Solid(parts[i])
  }

  lemma {:induction false} SplitCommas(parts: seq<string>)
    requires parts != [] && AllSolid(parts)
    ensures SplitTop(Commas(parts)) == parts
  {
    if |parts| == 1 {
      SplitWhole(parts[0]);
    } else {
      SplitComma(parts[0], Commas(parts[1..]));
      SplitCommas(parts[1..]);
    }
  }

  // ----- fields -----

  ghost predicate GoodKey(k: string) {
    k != [] && Plain(k) && '=' !in k
  }

  ghost predicate GoodFields(fs: seq<(string, string)>) {
    forall i :: 0 <= i < |fs| ==> GoodKey(fs[i].0) && Solid(fs[i].1)
  }

  ghost function Read(fs: seq<(string, string)>): Fields {
    if fs == [] then [] else [(fs[0].0, ParseFieldVal(fs[0].1))] + Read(fs[1..])
  }

  lemma NotBlank(s: string)
    requires s != [] && !IsSpace(s[0])
    ensures Trim(s) != []
  {
    var k := TrimEndTail(s);
    assert k != 0;
  }

  lemma PlainIsTrimmed(s: string)
    requires Plain(s)
    ensures Trimmed(s) && Trim(s) == s
  {
    if s != [] {
      assert PlainChar(s[0]) && PlainChar(s[|s| - 1]);
    }
    TrimOfTrimmed(s);
  }

  lemma FieldIsSolid(f: (string, string))
    requires GoodKey(f.0) && Solid(f.1)
    ensures Solid(FieldText(f))
  {
    PlainIsSolid(f.0);
    PlainIsSolid("=");
    SolidConcat(f.0, "=");
    SolidConcat(f.0 + "=", f.1);
  }

  lemma {:induction false} FieldsAreSolid(fs: seq<(string, string)>)
    requires GoodFields(fs)
    ensures AllSolid(FieldTexts(fs))
  {
    if fs != [] {
      FieldIsSolid(fs[0]);
      FieldsAreSolid(fs[1..]);
    }
  }

  lemma ReadField(f: (string, string))
    requires GoodKey(f.0)
    ensures Trim(FieldText(f)) != []
    ensures SplitOnce(FieldText(f), '=') == Some(f) && Trim(f.0) == f.0
  {
    assert PlainChar(f.0[0]);
    assert FieldText(f)[0] == f.0[0];
    NotBlank(FieldText(f));
    SplitOnceAt(f.0, '=', f.1);
    PlainIsTrimmed(f.0);
  }

  lemma {:induction false} ReadFields(fs: seq<(string, string)>)
    requires GoodFields(fs)
    ensures ParseFields(FieldTexts(fs)) == Some(Read(fs))
  {
    if fs != [] {
      ReadField(fs[0]);
      ReadFields(fs[1..]);
    }
  }

  // ----- looking fields up -----

  ghost function Find(fs: seq<(string, string)>, key: string): Option<string> {
    if fs == [] then None
    else if fs[0].0 == key then Some(fs[0].1)
    else Find(fs[1..], key)
  }

  ghost function ReadValue(v: Option<string>): Option<FieldVal> {
    match v
    case Some(s) => Some(ParseFieldVal(s))
    case None => None
  }

  lemma {:induction false} LookupRead(fs: seq<(string, string)>, key: string)
    ensures Lookup(Read(fs), key) == ReadValue(Find(fs, key))
  {
    if fs != [] {
      LookupRead(fs[1..], key);
    }
  }

  lemma {:induction false} FindConcat(a: seq<(string, string)>, b: seq<(string, string)>, key: string)
    ensures Find(a + b, key) == if Find(a, key).Some? then Find(a, key) else Find(b, key)
  {
    if a == [] {
      assert a + b == b;
    } else {
      assert (a + b)[1..] == a[1..] + b;
      FindConcat(a[1..], b, key);
    }
  }

  lemma FindField(k: string, v: Option<string>, key: string)
    ensures Find(Field(k, v), key) == if k == key then v else None
  {
    if v.Some? {
      assert Find(Field(k, v)[1..], key) == None;
    }
  }

  // ----- values -----

  /** A value the field reader takes as it is. */
  lemma PlainValue(v: string)
    requires Plain(v) && v != []
    ensures ParseFieldVal(v) == One(v)
  {
    PlainIsTrimmed(v);
    assert PlainChar(v[0]);
    assert !("[" <= v) && !("{" <= v);
  }

  lemma RangeValue(a: string, b: string)
    requires Plain(a) && Plain(b)
    ensures ParseFieldVal("[" + (a + "," + b) + "]") == Between(a, b)
    ensures Solid("[" + (a + "," + b) + "]")
  {
    var inner := a + "," + b;
    var v := "[" + inner + "]";
    assert v[0] == '[' && v[|v| - 1] == ']';
    TrimOfTrimmed(v);
    assert v == "[" + (inner + "]");
    StripPrefixOf("[", inner + "]");
    StripSuffixOf(inner, "]");
    PlainIsSolid(a);
    PlainIsSolid(b);
    SplitComma(a, b);
    SplitWhole(b);
    PlainIsTrimmed(a);
    PlainIsTrimmed(b);
    RangeIsSolid(a, b);
  }

  lemma RangeIsSolid(a: string, b: string)
    requires Plain(a) && Plain(b)
    ensures Solid("[" + (a + "," + b) + "]")
  {
    var deep := Scan(1, false);
    RunOne(TOP, '[');
    PlainRuns(deep, a);
    RunOne(deep, ',');
    PlainRuns(deep, b);
    RunConcat(deep, a, ",");
    RunConcat(deep, a + ",", b);
    RunOne(deep, ']');
    RunConcat(TOP, "[", a + "," + b);
    RunConcat(TOP, "[" + (a + "," + b), "]");
  }

  // ----- tidy values -----

  /** The two shapes of value the printer writes: a word, or a range of two words. */
  ghost predicate Tidy(v: string) {
    Plain(v) || exists a, b :: Plain(a) && Plain(b) && v == "[" + (a + "," + b) + "]"
  }

  ghost predicate TidyFields(fs: seq<(string, string)>) {
    forall i :: 0 <= i < |fs| ==> GoodKey(fs[i].0) && Tidy(fs[i].1)
  }

  lemma TidyIsSolid(v: string)
    requires Tidy(v)
    ensures Solid(v)
  {
    if Plain(v) {
      PlainIsSolid(v);
    } else {
      var a, b :| Plain(a) && Plain(b) && v == "[" + (a + "," + b) + "]";
      RangeIsSolid(a, b);
    }
  }

  lemma TidyIsGood(fs: seq<(string, string)>)
    requires TidyFields(fs)
    ensures GoodFields(fs)
  {
    forall i | 0 <= i < |fs| ensures Solid(fs[i].1) {
      TidyIsSolid(fs[i].1);
    }
  }

  // ----- level text -----

  /** The scanner comes out as it went in, and inside brackets it cuts nothing. */
  ghost predicate Level(st: Scan, s: string) {
    Run(st, s) == st && (st.depth >= 1 ==> NoCut(st, s))
  }

  lemma LevelConcat(st: Scan, a: string, b: string)
    requires Level(st, a) && Level(st, b)
    ensures Level(st, a + b)
  {
    RunConcat(st, a, b);
  }

  lemma LevelPlain(st: Scan, s: string)
    requires Plain(s)
    ensures Level(st, s)
  {
    PlainRuns(st, s);
  }

  lemma LevelComma(st: Scan)
    ensures Level(st, ",")
  {
    RunOne(st, ',');
  }

  function Deeper(st: Scan): Scan {
    if st.quoted then st else Scan(st.depth + 1, false)
  }

  lemma LevelBracket(st: Scan, open: char, s: string, close: char)
    requires (open == '[' && close == ']') || (open == '{' && close == '}') || (open == '<' && close == '>')
    requires Level(Deeper(st), s)
    ensures Level(st, [open] + s + [close])
  {
    RunOne(st, open);
    RunOne(Deeper(st), close);
    RunConcat(st, [open], s);
    RunConcat(st, [open] + s, [close]);
  }

  lemma LevelPair(st: Scan, a: string, b: string)
    requires Level(st, a) && Level(st, b)
    ensures Level(st, a + "," + b)
  {
    LevelComma(st);
    LevelConcat(st, a, ",");
    LevelConcat(st, a + ",", b);
  }

  lemma TidyIsLevel(st: Scan, v: string)
    requires Tidy(v)
    ensures Level(st, v)
  {
    if Plain(v) {
      LevelPlain(st, v);
    } else {
      var a, b :| Plain(a) && Plain(b) && v == "[" + (a + "," + b) + "]";
      LevelPlain(Deeper(st), a);
      LevelPlain(Deeper(st), b);
      LevelPair(Deeper(st), a, b);
      LevelBracket(st, '[', a + "," + b, ']');
    }
  }

  lemma FieldIsLevel(st: Scan, f: (string, string))
    requires GoodKey(f.0) && Level(st, f.1)
    ensures Level(st, FieldText(f))
  {
    LevelPlain(st, f.0);
    LevelPlain(st, "=");
    LevelConcat(st, f.0, "=");
    LevelConcat(st, f.0 + "=", f.1);
  }

  lemma {:induction false} FieldsAreLevel(st: Scan, fs: seq<(string, string)>)
    requires forall i :: 0 <= i < |fs| ==> GoodKey(fs[i].0) && Level(st, fs[i].1)
    ensures forall i :: 0 <= i < |fs| ==> Level(st, FieldTexts(fs)[i])
  {
    if fs != [] {
      FieldIsLevel(st, fs[0]);
      FieldsAreLevel(st, fs[1..]);
    }
  }

  lemma {:induction false} CommasAreLevel(st: Scan, parts: seq<string>)
    requires parts != [] && forall i :: 0 <= i < |parts| ==> Level(st, parts[i])
    ensures Level(st, Commas(parts))
  {
    if |parts| > 1 {
      CommasAreLevel(st, parts[1..]);
      LevelPair(st, parts[0], Commas(parts[1..]));
    }
  }
}
