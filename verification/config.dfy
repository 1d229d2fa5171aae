/** The comma-separated bot lists read from the environment in
    `telegram_openai_assistant/config.py`: `os.getenv(NAME, "").split(",")`,
    then every piece stripped and the blank ones dropped. */
module Config {
  import opened Wrappers
  import opened Text

  /** Number of commas in `s`. */
  function Commas(s: string): nat {
    if s == [] then 0 else (if s[0] == ',' then 1 else 0) + Commas(s[1..])
  }

  /** Position of the first comma in `s`, or `|s|` when there is none. */
  function FirstComma(s: string): (i: nat)
    ensures i <= |s|
  {
    if s == [] || s[0] == ',' then 0 else 1 + FirstComma(s[1..])
  }

  /** Everything before the first comma is comma-free, and the comma is there. */
  lemma {:induction false} FirstCommaShape(s: string)
    ensures ',' !in s[..FirstComma(s)]
    ensures FirstComma(s) < |s| ==> s[FirstComma(s)] == ','
  {
    if s != [] && s[0] != ',' {
      var j := FirstComma(s[1..]);
      FirstCommaShape(s[1..]);
      assert s[..1 + j] == [s[0]] + s[1..][..j];
    }
  }

  /** A comma-free string has its "first comma" at its end. */
  lemma {:induction false} FirstCommaNone(s: string)
    requires ',' !in s
    ensures FirstComma(s) == |s|
  {
    if s != [] {
      assert s[0] in s;
      assert forall k :: 0 <= k < |s[1..]| ==> s[1..][k] == s[k + 1];
      FirstCommaNone(s[1..]);
    }
  }

  /** `",".join(xs)`. */
  function Join(xs: seq<string>): string {
    if xs == [] then "" else if |xs| == 1 then xs[0] else xs[0] + "," + Join(xs[1..])
  }

  /** `s.split(",")`: the pieces between commas, empty ones included. */
  function Split(s: string): (pieces: seq<string>)
    ensures |pieces| >= 1
    decreases |s|
  {
    var i := FirstComma(s);
    if i == |s| then [s] else [s[..i]] + Split(s[i + 1..])
  }

  /** There is always one piece more than there are commas, and no piece holds a comma. */
  lemma {:induction false} SplitPieces(s: string)
    ensures |Split(s)| == Commas(s) + 1
    ensures forall k :: 0 <= k < |Split(s)| ==> ',' !in Split(s)[k]
    decreases |s|
  {
    var i := FirstComma(s);
    FirstCommaShape(s);
    if i == |s| {
      assert s[..i] == s;
      CommasNone(s);
    } else {
      CommasAt(s, i);
      SplitPieces(s[i + 1..]);
    }
  }

  lemma CommasNone(s: string)
    requires ',' !in s
    ensures Commas(s) == 0
  {
    if s != [] {
      assert s[0] != ',';
      CommasNone(s[1..]);
    }
  }

  lemma CommasAppend(a: string, b: string)
    ensures Commas(a + b) == Commas(a) + Commas(b)
  {
    if a != [] {
      assert (a + b)[1..] == a[1..] + b;
      CommasAppend(a[1..], b);
    } else {
      assert a + b == b;
    }
  }

  lemma CommasAt(s: string, i: nat)
    requires i < |s| && s[i] == ',' && ',' !in s[..i]
    ensures Commas(s) == 1 + Commas(s[i + 1..])
  {
    assert s == s[..i] + ([s[i]] + s[i + 1..]);
    CommasAppend(s[..i], [s[i]] + s[i + 1..]);
    CommasNone(s[..i]);
    assert ([s[i]] + s[i + 1..])[1..] == s[i + 1..];
  }

  /** The list comprehension of lines 17-18: keep `p.strip()` for every piece
      whose stripped form is non-empty, in order. */
  function KeepNonBlank(pieces: seq<string>): (r: seq<string>)
    ensures |r| <= |pieces|
  {
    if pieces == [] then []
    else
      var p := Strip(pieces[0]);
      (if p == [] then [] else [p]) + KeepNonBlank(pieces[1..])
  }

  /** An item that the parser could have produced: non-empty, comma-free, stripped. */
  predicate CleanItem(x: string) {
    x != [] && ',' !in x && Stripped(x)
  }

  /** Parses one environment value into the cleaned list. */
  function ParseList(s: string): (items: seq<string>)
    ensures |items| <= Commas(s) + 1
  {
    SplitPieces(s);
    KeepNonBlank(Split(s))
  }

  /** Every element of the parsed list is non-empty, has no white space at
      either end and holds no comma; there is at most one element more than
      there are commas. */
  lemma ParseListClean(s: string)
    ensures |ParseList(s)| <= Commas(s) + 1
    ensures forall k :: 0 <= k < |ParseList(s)| ==> CleanItem(ParseList(s)[k])
  {
    var pieces := Split(s);
    SplitPieces(s);
    forall k | 0 <= k < |ParseList(s)| ensures CleanItem(ParseList(s)[k]) {
      KeepNonBlankFrom(pieces, k);
    }
  }

  /** Each kept element is the stripped form of a comma-free piece, hence clean. */
  lemma {:induction false} KeepNonBlankFrom(pieces: seq<string>, k: nat)
    requires k < |KeepNonBlank(pieces)|
    requires forall j :: 0 <= j < |pieces| ==> ',' !in pieces[j]
    ensures CleanItem(KeepNonBlank(pieces)[k])
    decreases |pieces|
  {
    var p := Strip(pieces[0]);
    var rest := KeepNonBlank(pieces[1..]);
    assert KeepNonBlank(pieces) == (if p == [] then [] else [p]) + rest;
    if p != [] && k == 0 {
      if ',' in p { StripChars(pieces[0], ','); }
    } else {
      var k' := if p == [] then k else k - 1;
      assert KeepNonBlank(pieces)[k] == rest[k'];
      assert forall j :: 0 <= j < |pieces[1..]| ==> pieces[1..][j] == pieces[j + 1];
      KeepNonBlankFrom(pieces[1..], k');
    }
  }

  /** `os.getenv(NAME, "")`: an unset variable reads as the empty string. */
  function ParseEnv(value: Option<string>): (r: seq<string>)
    ensures value == None ==> r == []
    ensures value == Some("") ==> r == []
  {
    ParseList(value.GetOr(""))
  }

  /** The two lists the configuration exposes. */
  datatype Settings = Settings(telegramTokenBots: seq<string>, assistantIdBots: seq<string>)

  /** Lines 9-18 for `TELEGRAM_TOKEN_BOT` and `ASSISTANT_ID_BOT`: both lists
      hold clean items only, and an unset variable gives an empty list. */
  function Load(telegramTokenBot: Option<string>, assistantIdBot: Option<string>): (r: Settings)
    ensures forall k :: 0 <= k < |r.telegramTokenBots| ==> CleanItem(r.telegramTokenBots[k])
    ensures forall k :: 0 <= k < |r.assistantIdBots| ==> CleanItem(r.assistantIdBots[k])
    ensures telegramTokenBot == None ==> r.telegramTokenBots == []
    ensures assistantIdBot == None ==> r.assistantIdBots == []
  {
    ParseListClean(telegramTokenBot.GetOr(""));
    ParseListClean(assistantIdBot.GetOr(""));
    Settings(ParseEnv(telegramTokenBot), ParseEnv(assistantIdBot))
  }

  // ---------------------------------------------------------------------
  // Properties of the pipeline

  /** `",".join(s.split(",")) == s`. */
  lemma {:induction false} JoinSplit(s: string)
    ensures Join(Split(s)) == s
    decreases |s|
  {
    var i := FirstComma(s);
    if i < |s| {
      var t := s[i + 1..];
      JoinSplitAt(s, i);
      JoinSplit(t);
      FirstCommaShape(s);
      CutAt(s, i);
    }
  }

  /** Joining the pieces puts back the first comma. */
  lemma JoinSplitAt(s: string, i: nat)
    requires i < |s| && FirstComma(s) == i
    ensures Join(Split(s)) == s[..i] + "," + Join(Split(s[i + 1..]))
  {
    var x, rest := s[..i], Split(s[i + 1..]);
    SplitAt(s, i);
    SplitPieces(s[i + 1..]);
    JoinCons([x] + rest);
    assert ([x] + rest)[1..] == rest;
  }


  /** Splitting at a comma splits the piece lists apart. */
  lemma {:induction false} SplitAppend(a: string, b: string)
    ensures Split(a + "," + b) == Split(a) + Split(b)
    decreases |a|
  {
    var i := FirstComma(a);
    FirstCommaShape(a);
    if i == |a| {
      assert a[..i] == a;
      SplitAtFirstComma(a, b);
    } else {
      var a' := a[i + 1..];
      SplitAt(a, i);
      SplitAtInner(a, b, i);
      SplitAppend(a', b);
      ConsAssoc(a[..i], Split(a'), Split(b));
    }
  }

  lemma ConsAssoc<T>(x: T, p: seq<T>, q: seq<T>)
    ensures [x] + (p + q) == ([x] + p) + q
  {
  }

  /** A string is its text before position `i`, the comma at `i`, and the rest. */
  lemma CutAt(s: string, i: nat)
    requires i < |s| && s[i] == ','
    ensures s == s[..i] + "," + s[i + 1..]
  {
  }

  lemma Assoc<T>(a: seq<T>, b: seq<T>, c: seq<T>)
    ensures a + (b + c) == (a + b) + c
  {
  }

  /** When `a` is comma-free, the comma after it is the first one. */
  lemma SplitAtFirstComma(a: string, b: string)
    requires ',' !in a
    ensures Split(a + "," + b) == [a] + Split(b)
  {
    var s := a + "," + b;
    assert s[..|a|] == a;
    assert s[|a| + 1..] == b;
    FirstCommaIs(s, |a|);
    SplitAt(s, |a|);
  }

  /** The first comma of `a` is the first comma of `a + "," + b`. */
  lemma SplitAtInner(a: string, b: string, i: nat)
    requires i < |a| && a[i] == ',' && ',' !in a[..i]
    ensures Split(a + "," + b) == [a[..i]] + Split(a[i + 1..] + "," + b)
  {
    var s := a + "," + b;
    assert s[..i] == a[..i];
    assert s[i + 1..] == a[i + 1..] + "," + b;
    FirstCommaIs(s, i);
    SplitAt(s, i);
  }

  /** Unfolds `Split` at a known first comma. */
  lemma SplitAt(s: string, i: nat)
    requires i < |s| && FirstComma(s) == i
    ensures Split(s) == [s[..i]] + Split(s[i + 1..])
  {
  }

  lemma FirstCommaIs(s: string, i: nat)
    requires i < |s| && s[i] == ',' && ',' !in s[..i]
    ensures FirstComma(s) == i
  {
    if i > 0 {
      assert s[0] == s[..i][0];
      assert s[1..][..i - 1] == s[..i][1..];
      FirstCommaIs(s[1..], i - 1);
    }
  }

  lemma {:induction false} KeepNonBlankAppend(p: seq<string>, q: seq<string>)
    ensures KeepNonBlank(p + q) == KeepNonBlank(p) + KeepNonBlank(q)
    decreases |p|
  {
    if p != [] {
      var x := Strip(p[0]);
      var head := if x == [] then [] else [x];
      assert KeepNonBlank(p + q) == head + KeepNonBlank(p[1..] + q) by {
        assert (p + q)[0] == p[0];
        assert (p + q)[1..] == p[1..] + q;
      }
      KeepNonBlankAppend(p[1..], q);
      Assoc(head, KeepNonBlank(p[1..]), KeepNonBlank(q));
    } else {
      assert p + q == q;
    }
  }

  /** Order is kept: the list for `a,b` is the list for `a` followed by the list for `b`. */
  lemma ParseListAppend(a: string, b: string)
    ensures ParseList(a + "," + b) == ParseList(a) + ParseList(b)
  {
    SplitAppend(a, b);
    KeepNonBlankAppend(Split(a), Split(b));
  }

  /** A comma-free segment contributes its stripped form, or nothing when it is blank. */
  lemma ParseListSegment(s: string)
    requires ',' !in s
    ensures ParseList(s) == (if AllSpace(s) then [] else [Strip(s)])
  {
    FirstCommaNone(s);
    StripEmptyIffBlank(s);
  }

  /** A clean item parses to itself. */
  lemma ParseClean(x: string)
    requires CleanItem(x)
    ensures ParseList(x) == [x]
  {
    StripStripped(x);
    StripEmptyIffBlank(x);
    ParseListSegment(x);
  }

  /** Re-parsing the comma-join of clean items gives the items back. */
  lemma {:induction false} ParseJoin(xs: seq<string>)
    requires forall k :: 0 <= k < |xs| ==> CleanItem(xs[k])
    ensures ParseList(Join(xs)) == xs
    decreases |xs|
  {
    if xs == [] {
      ParseListSegment("");
    } else if |xs| == 1 {
      ParseClean(xs[0]);
    } else {
      ParseJoin(xs[1..]);
      ParseJoinStep(xs);
    }
  }

  lemma ParseJoinStep(xs: seq<string>)
    requires |xs| > 1 && CleanItem(xs[0])
    requires ParseList(Join(xs[1..])) == xs[1..]
    ensures ParseList(Join(xs)) == xs
  {
    var x, rest := xs[0], xs[1..];
    assert xs == [x] + rest;
    var j := Join(rest);
    calc {
      ParseList(Join(xs));
      { JoinCons(xs); }
      ParseList(x + "," + j);
      { ParseListAppend(x, j); }
      ParseList(x) + ParseList(j);
      { ParseClean(x); }
      [x] + rest;
    }
  }

  lemma JoinCons(xs: seq<string>)
    requires |xs| > 1
    ensures Join(xs) == xs[0] + "," + Join(xs[1..])
  {
  }

  /** The parsed list round-trips through `",".join`. */
  lemma ParseRoundTrip(s: string)
    ensures ParseList(Join(ParseList(s))) == ParseList(s)
  {
    ParseListClean(s);
    ParseJoin(ParseList(s));
  }
}
