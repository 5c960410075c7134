/**
 The configuration store: the meaning of a line, what a whole file says about
 a key, and the two engines that hold the items.
 */
module ConfigStore {
  datatype Item = Item(key: string, value: string)

  // ----- strings

  /** The index of the first c, or -1. */
  function Find(s: string, c: char): (r: int)
    ensures -1 <= r < |s|
    ensures r >= 0 ==> s[r] == c && c !in s[..r]
    ensures r < 0 ==> c !in s
  {
    if s == [] then -1
    else if s[0] == c then 0
    else
      var r := Find(s[1..], c);
      assert r >= 0 ==> s[..r + 1] == [s[0]] + s[1..][..r];
      if r < 0 then -1 else r + 1
  }

  /** substr(0, pos), the whole string for npos */
  function UpTo(s: string, pos: int): string
    requires -1 <= pos <= |s|
  {
    if pos < 0 then s else s[..pos]
  }

  function StripFront(s: string, c: char): string {
    if s != [] && s[0] == c then StripFront(s[1..], c) else s
  }

  function StripBack(s: string, c: char): string {
    if s != [] && s[|s| - 1] == c then StripBack(s[..|s| - 1], c) else s
  }

  /** Spaces at both ends, then tabs at both ends, each once. */
  function Trim(s: string): string {
    StripBack(StripFront(StripBack(StripFront(s, ' '), ' '), '\t'), '\t')
  }

  // ----- lines

  datatype Line = Blank | Section(prefix: string) | Pair(item: Item) | NoKey | Malformed

  /** The text of the line: a C string up to the first '\r', or else up to the first '\n', trimmed. */
  function LineText(buffer: string): string {
    var s := UpTo(buffer, Find(buffer, '\0'));
    var cr := Find(s, '\r');
    Trim(UpTo(s, if cr < 0 then Find(s, '\n') else cr))
  }

  function MakePair(key: string, value: string): Line {
    if Trim(key) == [] then NoKey else Pair(Item(Trim(key), Trim(value)))
  }

  /** What the line means under a section prefix.  A pair without '=' does not take the prefix. */
  function Parse(prefix: string, buffer: string): Line {
    var s := LineText(buffer);
    if s == [] || s[0] == '#' then Blank
    else if s[0] == '[' && s[|s| - 1] == ']' then Section(s[1..|s| - 1] + ".")
    else
      var eq := Find(s, '=');
      if eq >= 0 then MakePair(prefix + s[..eq], s[eq + 1..])
      else
        var tab := Find(s, '\t');
        var pos := if tab < 0 then Find(s, ' ') else tab;
        if pos >= 0 then MakePair(s[..pos], s[pos + 1..]) else Malformed
  }

  /** The section in force after the lines. */
  function PrefixAfter(prefix: string, lines: seq<string>): string {
    if lines == [] then prefix
    else
      var before := PrefixAfter(prefix, lines[..|lines| - 1]);
      var l := Parse(before, lines[|lines| - 1]);
      if l.Section? then l.prefix else before
  }

  /** What line i of the file means, under the section it stands in. */
  function LineAt(prefix: string, lines: seq<string>, i: nat): Line
    requires i < |lines|
  {
    Parse(PrefixAfter(prefix, lines[..i]), lines[i])
  }

  predicate Defines(prefix: string, lines: seq<string>, i: nat, key: string)
    requires i < |lines|
  {
    LineAt(prefix, lines, i).Pair? && LineAt(prefix, lines, i).item.key == key
  }

  /** The value is that of the first line that defines the key, or the default when there is none. */
  ghost predicate IsLookup(prefix: string, lines: seq<string>, key: string, default_: string, r: string) {
    || (r == default_ && forall i | 0 <= i < |lines| :: !Defines(prefix, lines, i, key))
    || exists i | 0 <= i < |lines| ::
         && Defines(prefix, lines, i, key) && r == LineAt(prefix, lines, i).item.value
         && forall j | 0 <= j < i :: !Defines(prefix, lines, j, key)
  }

  // ----- what the engines hold

  /** The items of the lines, the first for each key. */
  function Content(prefix: string, lines: seq<string>): map<string, string> {
    if lines == [] then map[]
    else
      var n := |lines| - 1;
      var before := Content(prefix, lines[..n]);
      var l := LineAt(prefix, lines, n);
      if l.Pair? then InsertAbsent(before, l.item) else before
  }

  function InsertAbsent(m: map<string, string>, item: Item): map<string, string> {
    if item.key in m then m else m[item.key := item.value]
  }

  function Get(m: map<string, string>, key: string, default_: string): string {
    if key in m then m[key] else default_
  }

  lemma LineOfPrefix(prefix: string, lines: seq<string>, n: nat, i: nat)
    requires i < n <= |lines|
    ensures LineAt(prefix, lines[..n], i) == LineAt(prefix, lines, i)
  {
    assert lines[..n][..i] == lines[..i];
  }

  /** The first line that defines a key decides. */
  lemma {:induction false} FirstDefinitionWins(prefix: string, lines: seq<string>, key: string, default_: string)
    ensures key in Content(prefix, lines) <==> exists i | 0 <= i < |lines| :: Defines(prefix, lines, i, key)
    ensures IsLookup(prefix, lines, key, default_, Get(Content(prefix, lines), key, default_))
    decreases |lines|
  {
    hide Parse, PrefixAfter;
    if lines != [] {
      var n := |lines| - 1;
      var front := lines[..n];
      FirstDefinitionWins(prefix, front, key, default_);
      forall i | 0 <= i < n ensures LineAt(prefix, front, i) == LineAt(prefix, lines, i) {
        LineOfPrefix(prefix, lines, n, i);
      }
      assert forall i | 0 <= i < n :: Defines(prefix, front, i, key) == Defines(prefix, lines, i, key);
      if key in Content(prefix, front) {
        var i :| 0 <= i < n && Defines(prefix, front, i, key)
          && Content(prefix, front)[key] == LineAt(prefix, front, i).item.value
          && forall j | 0 <= j < i :: !Defines(prefix, front, j, key);
        assert Defines(prefix, lines, i, key);
      } else {
        assert forall i | 0 <= i < n :: !Defines(prefix, lines, i, key);
        assert key in Content(prefix, lines) <==> Defines(prefix, lines, n, key);
      }
    }
  }

  lemma LookupIsUnique(prefix: string, lines: seq<string>, key: string, default_: string, r: string, r': string)
    requires IsLookup(prefix, lines, key, default_, r) && IsLookup(prefix, lines, key, default_, r')
    ensures r == r'
  {}

  // ----- what trimming leaves

  predicate All(s: string, c: char) { forall i | 0 <= i < |s| :: s[i] == c }

  predicate Bare(s: string, c: char) { s != [] ==> s[0] != c && s[|s| - 1] != c }

  lemma {:induction false} FrontStripped(s: string, c: char) returns (a: string)
    ensures s == a + StripFront(s, c) && All(a, c) && (StripFront(s, c) != [] ==> StripFront(s, c)[0] != c)
  {
    if s != [] && s[0] == c {
      var rest := FrontStripped(s[1..], c);
      a := [c] + rest;
    } else {
      a := [];
    }
  }

  lemma {:induction false} BackStripped(s: string, c: char) returns (b: string)
    ensures s == StripBack(s, c) + b && All(b, c)
    ensures StripBack(s, c) != [] ==> StripBack(s, c)[|StripBack(s, c)| - 1] != c && StripBack(s, c)[0] == s[0]
  {
    if s != [] && s[|s| - 1] == c {
      var rest := BackStripped(s[..|s| - 1], c);
      b := rest + [c];
    } else {
      b := [];
    }
  }

  /** Trimming takes away spaces at the ends and then tabs, and leaves neither a tab at an end nor, before that, a space. */
  lemma TrimTakesBlanks(s: string) returns (a: string, b: string, c: string, d: string)
    ensures s == a + (b + Trim(s) + c) + d && All(a, ' ') && All(d, ' ') && All(b, '\t') && All(c, '\t')
    ensures Bare(b + Trim(s) + c, ' ') && Bare(Trim(s), '\t')
  {
    hide StripFront, StripBack;
    var s1 := StripFront(s, ' ');
    a := FrontStripped(s, ' ');
    var s2 := StripBack(s1, ' ');
    d := BackStripped(s1, ' ');
    var s3 := StripFront(s2, '\t');
    b := FrontStripped(s2, '\t');
    c := BackStripped(s3, '\t');
    assert s2 == b + Trim(s) + c;
  }

  predicate IsBlank(c: char) { c == ' ' || c == '\t' }

  predicate AllBlank(s: string) { forall i | 0 <= i < |s| :: IsBlank(s[i]) }

  /** Behind a tab at the front there is a space, with something other than spaces behind it. */
  ghost predicate ShieldedFront(s: string) {
    exists i, j, k | 0 <= i < j < k < |s| :: s[i] == '\t' && s[j] == ' ' && s[k] != ' ' && AllBlank(s[..j])
  }

  /** The same from the back. */
  ghost predicate ShieldedBack(s: string) {
    exists i, j, k | 0 <= i < j < k < |s| :: s[i] != ' ' && s[j] == ' ' && s[k] == '\t' && AllBlank(s[j..])
  }

  /** The front of a trimmed string is a space exactly when a tab shields it. */
  lemma FrontBlankIff(s: string, a: string, b: string, t: string, c: string, d: string)
    requires s == a + (b + t + c) + d && All(a, ' ') && All(d, ' ') && All(b, '\t') && All(c, '\t')
    requires Bare(b + t + c, ' ') && Bare(t, '\t')
    ensures t != [] && t[0] == ' ' <==> ShieldedFront(s)
  {
    var mid := b + t + c;
    var n := |a| + |b|;
    assert forall i | 0 <= i < |a| :: s[i] == ' ';
    assert forall i | 0 <= i < |mid| :: s[|a| + i] == mid[i];
    assert forall i | 0 <= i < |b| :: mid[i] == '\t';
    assert forall i | |a| + |mid| <= i < |s| :: s[i] == ' ';
    assert forall i | 0 <= i < |t| :: mid[|b| + i] == t[i];
    if t != [] && t[0] == ' ' {
      assert mid[0] != ' ' && mid[|mid| - 1] != ' ';
      assert |b| > 0 && s[|a|] == '\t' && s[n] == ' ' && s[|a| + |mid| - 1] != ' ' && AllBlank(s[..n]);
    }
    if i, j, k :| 0 <= i < j < k < |s| && s[i] == '\t' && s[j] == ' ' && s[k] != ' ' && AllBlank(s[..j]) {
      assert |a| <= i && k < |a| + |mid|;
      SpaceIsInside(b, t, c, j - |a|);
      assert n <= j;
      if n < j {
        assert s[n] == s[..j][n] && IsBlank(s[n]);
      }
      assert s[n] == t[0] && t[0] != '\t';
    }
  }

  /** A space between the tabs that are taken away lies in what is left. */
  lemma SpaceIsInside(b: string, t: string, c: string, j: int)
    requires All(b, '\t') && All(c, '\t') && 0 <= j < |b + t + c| && (b + t + c)[j] == ' '
    ensures t != [] && |b| <= j < |b| + |t|
  {
    assert forall i | 0 <= i < |b| :: (b + t + c)[i] == b[i];
    assert forall i | 0 <= i < |c| :: (b + t + c)[|b| + |t| + i] == c[i];
    assert forall i | |b| + |t| <= i < |b + t + c| :: (b + t + c)[i] == c[i - |b| - |t|];
  }

  lemma BackBlankIff(s: string, a: string, b: string, t: string, c: string, d: string)
    requires s == a + (b + t + c) + d && All(a, ' ') && All(d, ' ') && All(b, '\t') && All(c, '\t')
    requires Bare(b + t + c, ' ') && Bare(t, '\t')
    ensures t != [] && t[|t| - 1] == ' ' <==> ShieldedBack(s)
  {
    var mid := b + t + c;
    var n := |a| + |b| + |t| - 1;
    assert forall i | 0 <= i < |a| :: s[i] == ' ';
    assert forall i | 0 <= i < |mid| :: s[|a| + i] == mid[i];
    assert forall i | |b| + |t| <= i < |mid| :: mid[i] == '\t';
    assert forall i | |a| + |mid| <= i < |s| :: s[i] == ' ';
    assert forall i | 0 <= i < |t| :: mid[|b| + i] == t[i];
    if t != [] && t[|t| - 1] == ' ' {
      assert mid[0] != ' ' && mid[|mid| - 1] != ' ';
      assert |c| > 0 && s[|a|] != ' ' && s[n] == ' ' && s[|a| + |mid| - 1] == '\t' && AllBlank(s[n..]);
    }
    if i, j, k :| 0 <= i < j < k < |s| && s[i] != ' ' && s[j] == ' ' && s[k] == '\t' && AllBlank(s[j..]) {
      assert |a| <= i && k < |a| + |mid|;
      SpaceIsInside(b, t, c, j - |a|);
      assert j <= n;
      if j < n {
        assert s[n] == s[j..][n - j] && IsBlank(s[n]);
      }
      assert s[n] == t[|t| - 1] && t[|t| - 1] != '\t';
    }
  }

  /** Trimming leaves a blank at an end exactly when a tab shields a space there. */
  lemma TrimLeavesBlankIff(s: string)
    ensures Trim(s) != [] && (IsBlank(Trim(s)[0]) || IsBlank(Trim(s)[|Trim(s)| - 1])) <==> ShieldedFront(s) || ShieldedBack(s)
  {
    hide Trim, ShieldedFront, ShieldedBack;
    var a, b, c, d := TrimTakesBlanks(s);
    FrontBlankIff(s, a, b, Trim(s), c, d);
    BackBlankIff(s, a, b, Trim(s), c, d);
  }

  /** A tab, a space, a key: the space stays. */
  lemma TrimIsNotComplete()
    ensures Trim("\t x") == " x"
  {
    var s := "\t x";
    assert StripBack(s, ' ') == s && StripFront(s, ' ') == s;
    assert s[1..] == " x" && StripFront(" x", '\t') == " x" && StripBack(" x", '\t') == " x";
  }

  /** The line is a pair with '=', so that its key takes the prefix of the section. */
  predicate TakesPrefix(buffer: string) {
    var s := LineText(buffer);
    '=' in s && s[0] != '#' && !(s[0] == '[' && s[|s| - 1] == ']')
  }

  lemma {:induction false} StripBackBehind(a: string, s: string, c: char)
    requires a != [] && a[|a| - 1] != c
    ensures StripBack(a + s, c) == a + StripBack(s, c)
  {
    if s == [] {
      assert a + s == a;
    } else if s[|s| - 1] == c {
      assert (a + s)[..|a + s| - 1] == a + s[..|s| - 1];
      StripBackBehind(a, s[..|s| - 1], c);
    }
  }

  /** Behind a prefix that is not blank only the back of a key is trimmed. */
  lemma TrimBehind(a: string, s: string)
    requires a != [] && !IsBlank(a[0]) && !IsBlank(a[|a| - 1])
    ensures Trim(a + s) == a + StripBack(StripBack(s, ' '), '\t')
  {
    hide StripBack;
    var mid := StripBack(s, ' ');
    assert StripFront(a + s, ' ') == a + s;
    StripBackBehind(a, s, ' ');
    assert StripFront(a + mid, '\t') == a + mid;
    StripBackBehind(a, mid, '\t');
  }

  /** What a line means depends on the section it stands in exactly when it is a pair with '='. */
  lemma PrefixMattersIff(buffer: string)
    ensures (exists p: string, q: string :: Parse(p, buffer) != Parse(q, buffer)) <==> TakesPrefix(buffer)
  {
    hide LineText, Trim, StripBack;
    if TakesPrefix(buffer) {
      var s := LineText(buffer);
      var key := s[..Find(s, '=')];
      TrimBehind("x", key);
      TrimBehind("xx", key);
      assert Parse("x", buffer) != Parse("xx", buffer);
    }
    forall p: string, q: string | !TakesPrefix(buffer) ensures Parse(p, buffer) == Parse(q, buffer) {}
  }

  // ----- what a line means, said of its text

  lemma {:induction false} FindIs(a: string, c: char, b: string)
    requires c !in a
    ensures Find(a + [c] + b, c) == |a|
  {
    var s := a + [c] + b;
    if a == [] {
      assert s[0] == c;
    } else {
      FindIs(a[1..], c, b);
      assert s[0] == a[0] && s[1..] == a[1..] + [c] + b;
    }
  }

  lemma FindFails(s: string, c: char)
    requires c !in s
    ensures Find(s, c) == -1
  {}

  /**
   The text of a line: nothing behind a '\0' counts; a '\r' ends it wherever it
   stands, else the first '\n' does; and what is left is trimmed.
   */
  lemma LineTextIs(t: string, rest: string)
    requires '\0' !in t && '\r' !in t
    ensures LineText(t + ['\r'] + rest) == Trim(t)
    ensures '\n' !in t ==> LineText(t) == Trim(t)
    ensures '\n' !in t && '\r' !in rest && '\0' !in rest ==> LineText(t + ['\n'] + rest) == Trim(t)
    ensures LineText(t + ['\0'] + rest) == LineText(t)
  {
    hide Trim, Find;
    FindIs(t, '\0', rest);
    FindFails(t, '\0');
    assert (t + ['\0'] + rest)[..|t|] == t;
    CarriageReturnEnds(t, rest);
    if '\n' !in t {
      FindFails(t, '\r');
      FindFails(t, '\n');
      if '\r' !in rest && '\0' !in rest {
        var s := t + ['\n'] + rest;
        FindFails(s, '\0');
        FindFails(s, '\r');
        FindIs(t, '\n', rest);
        assert s[..|t|] == t;
      }
    }
  }

  lemma CarriageReturnEnds(t: string, rest: string)
    requires '\0' !in t && '\r' !in t
    ensures LineText(t + ['\r'] + rest) == Trim(t)
  {
    hide Trim, Find;
    var s := t + ['\r'] + rest;
    var nul := Find(s, '\0');
    if nul >= 0 {
      assert nul > |t| by {
        assert forall i | 0 <= i < |t| :: s[i] == t[i];
        assert s[|t|] == '\r';
        FindAt(s, '\0');
      }
      assert s[..nul] == t + ['\r'] + rest[..nul - |t| - 1];
      FindIs(t, '\r', rest[..nul - |t| - 1]);
      assert s[..nul][..|t|] == t;
    } else {
      FindIs(t, '\r', rest);
      assert s[..|t|] == t;
    }
  }

  lemma FindAt(s: string, c: char)
    ensures Find(s, c) >= 0 ==> s[Find(s, c)] == c
  {}

  predicate IsComment(s: string) { s == [] || s[0] == '#' }
  predicate IsSection(s: string) { s != [] && s[0] == '[' && s[|s| - 1] == ']' }

  /** Which lines are skipped, begin a section, or are wrong. */
  lemma LineKinds(prefix: string, buffer: string, name: string)
    ensures var s := LineText(buffer);
            && (Parse(prefix, buffer).Blank? <==> IsComment(s))
            && (Parse(prefix, buffer).Section? <==> IsSection(s))
            && (s == ['['] + name + [']'] ==> Parse(prefix, buffer) == Section(name + "."))
            && (Parse(prefix, buffer).Malformed? <==> !IsComment(s) && !IsSection(s) && '=' !in s && '\t' !in s && ' ' !in s)
  {
    hide LineText, Trim;
    var s := LineText(buffer);
    if s == ['['] + name + [']'] {
      assert s[1..|s| - 1] == name;
    }
  }

  /** A pair with '=': the key before the first one, under the section, and the value behind it. */
  lemma EqualsPair(prefix: string, buffer: string, a: string, b: string)
    requires LineText(buffer) == a + ['='] + b && '=' !in a && !IsComment(LineText(buffer)) && !IsSection(LineText(buffer))
    ensures Parse(prefix, buffer) == if Trim(prefix + a) == [] then NoKey else Pair(Item(Trim(prefix + a), Trim(b)))
  {
    hide LineText, Trim, Find;
    var s := LineText(buffer);
    FindIs(a, '=', b);
    assert s[..|a|] == a && s[|a| + 1..] == b;
  }

  /** A pair without '=': the key before the first tab, or the first space where there is no tab; no section counts. */
  lemma BlankPair(prefix: string, buffer: string, a: string, c: char, b: string)
    requires LineText(buffer) == a + [c] + b && '=' !in LineText(buffer) && !IsComment(LineText(buffer)) && !IsSection(LineText(buffer))
    requires c !in a && (c == '\t' || (c == ' ' && '\t' !in LineText(buffer)))
    ensures Parse(prefix, buffer) == if Trim(a) == [] then NoKey else Pair(Item(Trim(a), Trim(b)))
  {
    hide LineText, Trim, Find;
    var s := LineText(buffer);
    FindIs(a, c, b);
    FindFails(s, '=');
    if c == ' ' {
      FindFails(s, '\t');
    }
    assert s[..|a|] == a && s[|a| + 1..] == b;
  }

  /** Where the key of a pair ends: the text cut at its first '=', else tab, else space. */
  ghost predicate SplitsAt(s: string, a: string, c: char, b: string) {
    && s == a + [c] + b && c !in a
    && (c == '=' || (c == '\t' && '=' !in s) || (c == ' ' && '=' !in s && '\t' !in s))
  }

  /** A line has no key exactly when it is a pair whose key is blank, with the section in front where it counts. */
  lemma NoKeyIff(prefix: string, buffer: string)
    ensures var s := LineText(buffer);
            Parse(prefix, buffer).NoKey? <==>
              && !IsComment(s) && !IsSection(s)
              && exists a: string, c: char, b: string ::
                   SplitsAt(s, a, c, b) && Trim(if c == '=' then prefix + a else a) == []
  {
    hide LineText, Trim, Parse;
    var s := LineText(buffer);
    LineKinds(prefix, buffer, "");
    forall a: string, c: char, b: string | SplitsAt(s, a, c, b) && !IsComment(s) && !IsSection(s)
      ensures Parse(prefix, buffer).NoKey? <==> Trim(if c == '=' then prefix + a else a) == []
    {
      if c == '=' {
        EqualsPair(prefix, buffer, a, b);
      } else {
        BlankPair(prefix, buffer, a, c, b);
      }
    }
    if !IsComment(s) && !IsSection(s) && ('=' in s || '\t' in s || ' ' in s) {
      var c := if '=' in s then '=' else if '\t' in s then '\t' else ' ';
      var n := Find(s, c);
      assert s == s[..n] + [c] + s[n + 1..];
      assert SplitsAt(s, s[..n], c, s[n + 1..]);
    }
    if Parse(prefix, buffer).NoKey? {
      assert !Parse(prefix, buffer).Malformed? && !Parse(prefix, buffer).Blank? && !Parse(prefix, buffer).Section?;
    }
  }

  /** The section in force is that of the last line that begins one. */
  lemma {:induction false} PrefixIsLastSection(prefix: string, lines: seq<string>)
    ensures (forall i | 0 <= i < |lines| :: !IsSection(LineText(lines[i]))) ==> PrefixAfter(prefix, lines) == prefix
    ensures forall i, name | 0 <= i < |lines| && LineText(lines[i]) == ['['] + name + [']']
                             && (forall j | i < j < |lines| :: !IsSection(LineText(lines[j]))) :: PrefixAfter(prefix, lines) == name + "."
  {
    hide Parse, LineText;
    if lines != [] {
      var n := |lines| - 1;
      PrefixIsLastSection(prefix, lines[..n]);
      var before := PrefixAfter(prefix, lines[..n]);
      LineKinds(before, lines[n], "");
      forall i, name | 0 <= i < |lines| && LineText(lines[i]) == ['['] + name + [']']
                       && (forall j | i < j < |lines| :: !IsSection(LineText(lines[j])))
        ensures PrefixAfter(prefix, lines) == name + "."
      {
        if i == n {
          LineKinds(before, lines[n], name);
        } else {
          assert lines[..n][i] == lines[i];
          assert forall j | i < j < n :: lines[..n][j] == lines[j];
        }
      }
      assert forall j | 0 <= j < n :: lines[..n][j] == lines[j];
    }
  }

  // ----- loading again

  /** The number of lines before the first section. */
  function HeadLength(lines: seq<string>): (n: nat)
    ensures n <= |lines|
  {
    if lines == [] || Parse("", lines[0]).Section? then 0 else 1 + HeadLength(lines[1..])
  }

  /** Definitions in `a` come first. */
  function Over(a: map<string, string>, b: map<string, string>): map<string, string> { b + a }

  lemma {:induction false} ContentSplits(prefix: string, a: seq<string>, b: seq<string>)
    ensures PrefixAfter(prefix, a + b) == PrefixAfter(PrefixAfter(prefix, a), b)
    ensures Content(prefix, a + b) == Over(Content(prefix, a), Content(PrefixAfter(prefix, a), b))
    decreases |b|
  {
    hide Parse;
    if b == [] {
      assert a + b == a;
    } else {
      var n := |b| - 1;
      ContentSplits(prefix, a, b[..n]);
      assert (a + b)[..|a| + n] == a + b[..n];
      assert LineAt(prefix, a + b, |a| + n) == LineAt(PrefixAfter(prefix, a), b, n);
    }
  }

  lemma SectionIsSection(prefix: string, buffer: string)
    ensures Parse(prefix, buffer).Section? ==> Parse("", buffer) == Parse(prefix, buffer)
    ensures Parse("", buffer).Section? ==> Parse(prefix, buffer).Section?
  {
    hide LineText, Trim;
  }

  lemma {:induction false} HeadHasNoSection(prefix: string, lines: seq<string>, n: nat)
    requires n <= HeadLength(lines)
    ensures PrefixAfter(prefix, lines[..n]) == prefix
  {
    hide Parse;
    if n > 0 {
      HeadHasNoSection(prefix, lines, n - 1);
      assert lines[..n][..n - 1] == lines[..n - 1] && lines[..n][n - 1] == lines[n - 1];
      HeadLineIsNoSection(lines, n - 1);
      SectionIsSection(prefix, lines[n - 1]);
    }
  }

  lemma {:induction false} HeadLineIsNoSection(lines: seq<string>, i: nat)
    requires i < HeadLength(lines)
    ensures !Parse("", lines[i]).Section?
  {
    hide Parse;
    if i > 0 {
      HeadLineIsNoSection(lines[1..], i - 1);
    }
  }

  lemma {:induction false} HeadEnds(lines: seq<string>)
    ensures HeadLength(lines) < |lines| ==> Parse("", lines[HeadLength(lines)]).Section?
  {
    hide Parse;
    if lines != [] && !Parse("", lines[0]).Section? {
      HeadEnds(lines[1..]);
    }
  }

  /** From a section line on, the prefix before it does not matter. */
  lemma {:induction false} TailIsFixed(p: string, q: string, tail: seq<string>)
    requires tail != [] && Parse("", tail[0]).Section?
    ensures PrefixAfter(p, tail) == PrefixAfter(q, tail) && Content(p, tail) == Content(q, tail)
    decreases |tail|
  {
    hide Parse;
    SectionIsSection(p, tail[0]);
    SectionIsSection(q, tail[0]);
    var n := |tail| - 1;
    if n == 0 {
      assert tail[..0] == [];
    } else {
      TailIsFixed(p, q, tail[..n]);
    }
  }

  /** What a file says under a starting prefix: its head under that prefix, over a tail that does not depend on it. */
  lemma HeadOverTail(prefix: string, lines: seq<string>)
    ensures var n := HeadLength(lines);
            Content(prefix, lines) == Over(Content(prefix, lines[..n]), Content("", lines[n..]))
  {
    hide Parse;
    var n := HeadLength(lines);
    assert lines[..n] + lines[n..] == lines;
    ContentSplits(prefix, lines[..n], lines[n..]);
    HeadHasNoSection(prefix, lines, n);
    HeadEnds(lines);
    if n < |lines| {
      TailIsFixed(prefix, "", lines[n..]);
    }
  }

  /** Every key of the two heads is answered alike over the tail. */
  ghost predicate Agree(a: map<string, string>, b: map<string, string>, tail: map<string, string>) {
    forall key | key in a || key in b ::
      && (key in a || key in tail) && (key in b || key in tail)
      && (if key in a then a[key] else tail[key]) == (if key in b then b[key] else tail[key])
  }

  /**
   A second load starts in the section that the first one ended in.  It gives
   the same answers exactly when the lines before the first section, read under
   that section and under none, agree over the rest of the file.
   */
  lemma ReloadSameIff(lines: seq<string>)
    ensures var n, last := HeadLength(lines), PrefixAfter("", lines);
            (Content(last, lines) == Content("", lines)
             <==> Agree(Content("", lines[..n]), Content(last, lines[..n]), Content("", lines[n..])))
  {
    hide Parse, Content, PrefixAfter;
    var n, last := HeadLength(lines), PrefixAfter("", lines);
    HeadOverTail("", lines);
    HeadOverTail(last, lines);
    var a, b, tail := Content("", lines[..n]), Content(last, lines[..n]), Content("", lines[n..]);
    if Over(b, tail) == Over(a, tail) {
      forall key | key in a || key in b
        ensures (key in a || key in tail) && (key in b || key in tail)
        ensures (if key in a then a[key] else tail[key]) == (if key in b then b[key] else tail[key])
      {
        assert key in Over(a, tail) && key in Over(b, tail) && Over(a, tail)[key] == Over(b, tail)[key];
      }
    }
  }

  /** In particular when no line before the first section is a pair with '='. */
  lemma {:induction false} ReloadSameWithoutHead(lines: seq<string>)
    requires forall i | 0 <= i < HeadLength(lines) :: !TakesPrefix(lines[i])
    ensures Content(PrefixAfter("", lines), lines) == Content("", lines)
  {
    hide Parse, Content, PrefixAfter, TakesPrefix;
    var last := PrefixAfter("", lines);
    PlainHead("", last, lines, HeadLength(lines));
    HeadOverTail("", lines);
    HeadOverTail(last, lines);
  }

  lemma {:induction false} PlainHead(p: string, q: string, lines: seq<string>, n: nat)
    requires n <= HeadLength(lines) && forall i | 0 <= i < n :: !TakesPrefix(lines[i])
    ensures Content(p, lines[..n]) == Content(q, lines[..n])
  {
    hide Parse, TakesPrefix, PrefixAfter;
    if n > 0 {
      PlainHead(p, q, lines, n - 1);
      assert lines[..n][..n - 1] == lines[..n - 1] && lines[..n][n - 1] == lines[n - 1];
      HeadHasNoSection(p, lines, n - 1);
      HeadHasNoSection(q, lines, n - 1);
      PlainLine(p, q, lines[n - 1]);
    }
  }

  lemma PlainLine(p: string, q: string, buffer: string)
    requires !TakesPrefix(buffer)
    ensures Parse(p, buffer) == Parse(q, buffer)
  {
    hide LineText, MakePair;
  }

  /** A pair, then a section: loaded again, the pair has moved into the section. */
  lemma ReloadMovesPair()
    ensures var lines := ["a=1\n", "[s]\n"];
            && Content("", lines) == map["a" := "1"] && PrefixAfter("", lines) == "s."
            && Content("s.", lines) == map["s.a" := "1"]
  {
    var lines := ["a=1\n", "[s]\n"];
    PairLine();
    SectionLine();
    hide Parse;
    assert lines[..1] == ["a=1\n"] && lines[..1][..0] == [] && lines[..0] == [];
    assert LineAt("", lines[..1], 0) == Pair(Item("a", "1")) && LineAt("s.", lines[..1], 0) == Pair(Item("s.a", "1"));
    assert LineAt("", lines, 1) == Section("s.") && LineAt("s.", lines, 1) == Section("s.");
  }

  lemma PairText()
    ensures LineText("a=1\n") == "a=1"
  {
    Plain("a=1");
    assert Find("a=1\n", '\0') < 0 && Find("a=1\n", '\r') < 0;
    assert Find("a=1\n", '\n') == 3 && "a=1\n"[..3] == "a=1";
  }

  lemma PairParts()
    ensures Find("a=1", '=') == 1 && "a=1"[..1] == "a" && "a=1"[2..] == "1"
  {}

  lemma PairLine()
    ensures Parse("", "a=1\n") == Pair(Item("a", "1")) && Parse("s.", "a=1\n") == Pair(Item("s.a", "1"))
  {
    hide Trim, LineText, Find;
    PairText();
    PairParts();
    Plain("a");
    Plain("1");
    Plain("s.a");
    assert "" + "a" == "a" && "s." + "a" == "s.a";
  }

  lemma SectionLine()
    ensures Parse("", "[s]\n") == Section("s.") && Parse("s.", "[s]\n") == Section("s.")
  {
    Plain("[s]");
    assert Find("[s]\n", '\0') < 0 && Find("[s]\n", '\r') < 0;
    assert Find("[s]\n", '\n') == 3 && "[s]\n"[..3] == "[s]";
    assert LineText("[s]\n") == "[s]";
    assert "[s]"[1..2] == "s" && "s" + "." == "s.";
  }

  lemma Plain(s: string)
    requires s != [] && !IsBlank(s[0]) && !IsBlank(s[|s| - 1])
    ensures Trim(s) == s
  {}

  // ----- the order of keys

  /** operator< of strings */
  predicate Less(a: string, b: string) {
    if b == [] then false
    else if a == [] then true
    else if a[0] == b[0] then Less(a[1..], b[1..])
    else a[0] < b[0]
  }

  lemma {:induction false} LessIsStrict(a: string)
    ensures !Less(a, a)
  {
    if a != [] { LessIsStrict(a[1..]); }
  }

  lemma {:induction false} LessIsTransitive(a: string, b: string, c: string)
    requires Less(a, b) && Less(b, c)
    ensures Less(a, c)
  {
    if a != [] && a[0] == b[0] == c[0] {
      LessIsTransitive(a[1..], b[1..], c[1..]);
    }
  }

  lemma {:induction false} LessIsTotal(a: string, b: string)
    ensures Less(a, b) || Less(b, a) || a == b
  {
    if a != [] && b != [] && a[0] == b[0] {
      LessIsTotal(a[1..], b[1..]);
      if a[1..] == b[1..] {
        assert a == [a[0]] + a[1..] && b == [b[0]] + b[1..];
      }
    }
  }

  /** The order of strings: a proper prefix comes first, else the first difference decides. */
  lemma {:induction false} LessIff(a: string, b: string)
    ensures Less(a, b) <==> a < b || exists i: nat :: i < |a| && i < |b| && a[..i] == b[..i] && a[i] < b[i]
  {
    if a == [] || b == [] {
    } else if a[0] == b[0] {
      LessIff(a[1..], b[1..]);
      assert a == [a[0]] + a[1..] && b == [b[0]] + b[1..];
      if i: nat :| i < |a[1..]| && i < |b[1..]| && a[1..][..i] == b[1..][..i] && a[1..][i] < b[1..][i] {
        assert a[..i + 1] == [a[0]] + a[1..][..i] && b[..i + 1] == [b[0]] + b[1..][..i];
        assert a[i + 1] < b[i + 1];
      }
      if i: nat :| i < |a| && i < |b| && a[..i] == b[..i] && a[i] < b[i] {
        assert a[1..][..i - 1] == a[..i][1..] && b[1..][..i - 1] == b[..i][1..];
        assert a[1..][i - 1] < b[1..][i - 1];
      }
    } else {
      assert a[..0] == b[..0];
      if i: nat :| i < |a| && i < |b| && a[..i] == b[..i] && a[i] < b[i] {
        assert i > 0 ==> a[..i][0] == a[0] && b[..i][0] == b[0];
      }
    }
  }

  ghost predicate Sorted(v: seq<Item>) {
    forall i, j | 0 <= i < j < |v| :: Less(v[i].key, v[j].key)
  }

  /** The vector holds exactly the items of the map. */
  ghost predicate Holds(v: seq<Item>, m: map<string, string>) {
    && (forall i | 0 <= i < |v| :: v[i].key in m && m[v[i].key] == v[i].value)
    && (forall k | k in m :: exists i | 0 <= i < |v| :: v[i].key == k)
  }

  /** Everything before r is smaller than the key, nothing from r on is. */
  ghost predicate IsLowerBound(v: seq<Item>, key: string, r: nat) {
    && r <= |v| && (forall i | 0 <= i < r :: Less(v[i].key, key))
    && forall i | r <= i < |v| :: !Less(v[i].key, key)
  }

  /** std::lower_bound */
  method LowerBound(v: seq<Item>, key: string) returns (r: nat)
    requires Sorted(v)
    ensures IsLowerBound(v, key, r)
  {
    hide Less;
    r := 0;
    var len := |v|;
    while len > 0
      invariant 0 <= len && r + len <= |v| && (forall i | 0 <= i < r :: Less(v[i].key, key))
      invariant forall i | r + len <= i < |v| :: !Less(v[i].key, key)
    {
      var half := len / 2;
      var mid := r + half;
      if Less(v[mid].key, key) {
        forall i | r <= i < mid ensures Less(v[i].key, key) {
          LessIsTransitive(v[i].key, v[mid].key, key);
        }
        r := mid + 1;
        len := len - half - 1;
      } else {
        forall i | mid < i < |v| ensures !Less(v[i].key, key) {
          if Less(v[i].key, key) {
            LessIsTransitive(v[mid].key, v[i].key, key);
          }
        }
        len := half;
      }
    }
  }

  /** The key is in the vector exactly at its lower bound, if at all. */
  lemma KeyAtLowerBound(v: seq<Item>, key: string, r: nat)
    requires Sorted(v) && IsLowerBound(v, key, r)
    ensures forall i | 0 <= i < |v| && v[i].key == key :: i == r
    ensures (r == |v| || v[r].key != key) ==> forall i | r <= i < |v| :: Less(key, v[i].key)
  {
    hide Less;
    LessIsStrict(key);
    forall i | r < i < |v| ensures v[i].key != key {
      assert Less(v[r].key, v[i].key);
    }
    if r < |v| && v[r].key != key {
      LessIsTotal(v[r].key, key);
      forall i | r <= i < |v| ensures Less(key, v[i].key) {
        if i > r { LessIsTransitive(key, v[r].key, v[i].key); }
      }
    }
  }

  function InsertAt(v: seq<Item>, r: nat, item: Item): seq<Item>
    requires r <= |v|
  {
    v[..r] + [item] + v[r..]
  }

  lemma InsertKeepsSorted(v: seq<Item>, r: nat, item: Item)
    requires Sorted(v) && IsLowerBound(v, item.key, r) && (r == |v| || v[r].key != item.key)
    ensures Sorted(InsertAt(v, r, item))
  {
    hide Less;
    KeyAtLowerBound(v, item.key, r);
    var w := InsertAt(v, r, item);
    forall i, j | 0 <= i < j < |w| ensures Less(w[i].key, w[j].key) {
      assert i < r ==> w[i] == v[i];
      assert i > r ==> w[i] == v[i - 1];
      assert j < r ==> w[j] == v[j];
      assert j > r ==> w[j] == v[j - 1];
    }
  }

  lemma InsertHolds(v: seq<Item>, m: map<string, string>, r: nat, item: Item)
    requires Holds(v, m) && r <= |v| && item.key !in m
    ensures Holds(InsertAt(v, r, item), InsertAbsent(m, item))
  {
    var w, m' := InsertAt(v, r, item), InsertAbsent(m, item);
    forall i | 0 <= i < |w| ensures w[i].key in m' && m'[w[i].key] == w[i].value {
      assert w[i] == if i < r then v[i] else if i == r then item else v[i - 1];
    }
    forall k | k in m' ensures exists i | 0 <= i < |w| :: w[i].key == k {
      if k == item.key {
        assert w[r].key == k;
      } else {
        var i :| 0 <= i < |v| && v[i].key == k;
        assert w[if i < r then i else i + 1].key == k;
      }
    }
  }

  // ----- reading a file

  const MAX_LINE := 1024

  /** The length of what fgets reads: up to and with a newline, at most MAX_LINE - 1 characters. */
  function ChunkLength(text: string): (n: nat)
    ensures n <= |text| && (text != [] ==> n > 0)
  {
    var nl := Find(text, '\n');
    var n := if nl < 0 then |text| else nl + 1;
    if n < MAX_LINE then n else MAX_LINE - 1
  }

  /** The lines `load` sees.  A read that runs into the end of the file is not used. */
  function Chunks(text: string): seq<string> {
    if text == [] then []
    else
      var n := ChunkLength(text);
      if text[n - 1] != '\n' && n < MAX_LINE - 1 then [] else [text[..n]] + Chunks(text[n..])
  }

  function Joined(lines: seq<string>): string {
    if lines == [] then [] else lines[0] + Joined(lines[1..])
  }

  /** What follows the last newline. */
  function Unended(text: string): (u: string)
    ensures |u| <= |text| && '\n' !in u
    decreases |text|
  {
    var nl := Find(text, '\n');
    if nl < 0 then text else Unended(text[nl + 1..])
  }

  lemma {:induction false} UnendedIsTheEnd(text: string)
    ensures text == text[..|text| - |Unended(text)|] + Unended(text)
    decreases |text|
  {
    hide Find;
    var nl := Find(text, '\n');
    if nl >= 0 {
      var rest := text[nl + 1..];
      UnendedIsTheEnd(rest);
      assert text == text[..nl + 1] + rest;
    }
  }

  /** A read that uses n characters leaves the unended part alone, or takes a full read off it. */
  lemma UnendedAfterRead(text: string, n: nat)
    requires text != [] && n == ChunkLength(text) && (text[n - 1] == '\n' || n == MAX_LINE - 1)
    ensures |Unended(text)| % (MAX_LINE - 1) == |Unended(text[n..])| % (MAX_LINE - 1)
  {
    var nl := Find(text, '\n');
    if nl >= 0 && n < nl + 1 {
      FindBehind(text, '\n', n);
      assert text[n..][nl + 1 - n..] == text[nl + 1..];
    } else if nl < 0 {
      FindBehind(text, '\n', n);
    }
  }

  lemma {:induction false} FindBehind(s: string, c: char, n: nat)
    requires n <= |s| && c !in s[..n]
    ensures Find(s[n..], c) == if Find(s, c) < 0 then -1 else Find(s, c) - n
  {
    if n > 0 {
      assert s[0] == s[..n][0] && s[1..][..n - 1] == s[..n][1..];
      FindBehind(s[1..], c, n - 1);
      assert s[1..][n - 1..] == s[n..];
    }
  }

  /**
   The text is seen in order up to the last characters of an unended last
   line: as many as are left over when that line is read in full reads.
   */
  lemma {:induction false} OnlyAnUnendedLineIsLost(text: string)
    ensures Joined(Chunks(text)) <= text
    ensures |text| - |Joined(Chunks(text))| == |Unended(text)| % (MAX_LINE - 1)
    decreases |text|
  {
    hide Unended;
    if text != [] {
      var n := ChunkLength(text);
      if text[n - 1] != '\n' && n < MAX_LINE - 1 {
        NoNewlineIsUnended(text);
      } else {
        OnlyAnUnendedLineIsLost(text[n..]);
        UnendedAfterRead(text, n);
        var tail := Chunks(text[n..]);
        assert Chunks(text)[1..] == tail;
        assert text == text[..n] + text[n..];
      }
    }
  }

  lemma NoNewlineIsUnended(text: string)
    requires '\n' !in text
    ensures Unended(text) == text
  {}

  /** Every line that is read ends at its only newline, or is a full read without one before its end. */
  lemma {:induction false} ChunksAreLines(text: string)
    ensures forall i | 0 <= i < |Chunks(text)| ::
              var c := Chunks(text)[i];
              && 0 < |c| <= MAX_LINE - 1 && '\n' !in c[..|c| - 1] && (c[|c| - 1] == '\n' || |c| == MAX_LINE - 1)
    decreases |text|
  {
    hide Find;
    if text != [] {
      var n := ChunkLength(text);
      var nl := Find(text, '\n');
      assert text[..n][..n - 1] == text[..n - 1];
      if nl >= 0 {
        assert forall i | 0 <= i < nl :: text[i] == text[..nl][i];
      }
      ChunksAreLines(text[n..]);
    }
  }

  /** Nothing is lost exactly when what follows the last newline is a whole number of full reads, such as nothing. */
  lemma NothingLostIff(text: string)
    ensures Joined(Chunks(text)) == text <==> |Unended(text)| % (MAX_LINE - 1) == 0
  {
    hide Unended, Chunks, Joined;
    OnlyAnUnendedLineIsLost(text);
  }

  /** One short line without a newline: nothing is read at all. */
  lemma ShortFileIsLost()
    ensures Chunks("k=v") == []
  {
    assert Find("k=v", '\n') < 0;
  }

  // ----- the engines

  /** The engine over a hash map. */
  class MapConfig {
    var prefix: string
    var content: map<string, string>
    ghost var start: string        // the section in force before the first line
    ghost var lines: seq<string>   // the lines loaded

    ghost predicate Valid()
      reads this
    {
      content == Content(start, lines) && prefix == PrefixAfter(start, lines)
    }

    constructor ()
      ensures Valid() && start == "" && lines == []
    {
      prefix, content, start, lines := "", map[], "", [];
    }

    method InsertItem(item: Item)
      modifies this`content
      ensures content == InsertAbsent(old(content), item)
    {
      if item.key !in content {
        content := content[item.key := item.value];
      }
    }

    method LoadLine(buffer: string) returns (ok: bool)
      requires Valid()
      modifies this
      ensures Valid() && lines == old(lines) + [buffer] && start == old(start)
      ensures ok == !Parse(old(prefix), buffer).Malformed?
    {
      hide Parse, Content, PrefixAfter;
      AppendLine(start, lines, buffer);
      var l := Parse(prefix, buffer);
      ok := !l.Malformed?;
      if l.Section? {
        prefix := l.prefix;
      } else if l.Pair? {
        InsertItem(l.item);
      }
      lines := lines + [buffer];
    }

    method Load(text: string)
      requires Valid()
      modifies this
      ensures Valid() && lines == Chunks(text) && start == old(prefix)
    {
      hide Content, PrefixAfter, Chunks, ChunkLength, Sorted, Holds, Parse, Remaining;
      content, start, lines := map[], prefix, [];
      NoLines(prefix, text);
      var rest := text;
      while rest != []
        invariant Valid() && start == old(prefix) && Remaining(text, lines, rest)
        decreases |rest|
      {
        NextChunk(text, lines, rest);
        var n := ChunkLength(rest);
        if rest[n - 1] != '\n' && n < MAX_LINE - 1 { break; }
        var _ := LoadLine(rest[..n]);
        rest := rest[n..];
      }
      if rest == [] { NothingRemains(text, lines); }
    }

    method GetString(key: string, default_: string) returns (r: string)
      requires Valid()
      ensures IsLookup(start, lines, key, default_, r)
    {
      FirstDefinitionWins(start, lines, key, default_);
      if key !in content { return default_; }
      r := content[key];
    }
  }

  /** The engine over a vector that is kept sorted and searched by halving. */
  class VecConfig {
    var prefix: string
    var content: seq<Item>
    ghost var start: string
    ghost var lines: seq<string>

    ghost predicate Valid()
      reads this
    {
      Sorted(content) && Holds(content, Content(start, lines)) && prefix == PrefixAfter(start, lines)
    }

    constructor ()
      ensures Valid() && start == "" && lines == []
    {
      prefix, content, start, lines := "", [], "", [];
    }

    method InsertItem(item: Item, ghost m: map<string, string>)
      requires Sorted(content) && Holds(content, m)
      modifies this`content
      ensures Sorted(content) && Holds(content, InsertAbsent(m, item))
    {
      hide Less, InsertAt;
      var r := LowerBound(content, item.key);
      KeyAtLowerBound(content, item.key, r);
      if r == |content| || content[r].key != item.key {
        InsertKeepsSorted(content, r, item);
        InsertHolds(content, m, r, item);
        content := InsertAt(content, r, item);
      }
    }

    method LoadLine(buffer: string) returns (ok: bool)
      requires Valid()
      modifies this
      ensures Valid() && lines == old(lines) + [buffer] && start == old(start)
      ensures ok == !Parse(old(prefix), buffer).Malformed?
    {
      hide Parse, Content, PrefixAfter, Holds, Sorted;
      AppendLine(start, lines, buffer);
      var l := Parse(prefix, buffer);
      ok := !l.Malformed?;
      if l.Section? {
        prefix := l.prefix;
      } else if l.Pair? {
        InsertItem(l.item, Content(start, lines));
      }
      lines := lines + [buffer];
    }

    method Load(text: string)
      requires Valid()
      modifies this
      ensures Valid() && lines == Chunks(text) && start == old(prefix)
    {
      hide Content, PrefixAfter, Chunks, ChunkLength, Sorted, Holds, Parse, Remaining;
      content, start, lines := [], prefix, [];
      NoLines(prefix, text);
      var rest := text;
      while rest != []
        invariant Valid() && start == old(prefix) && Remaining(text, lines, rest)
        decreases |rest|
      {
        NextChunk(text, lines, rest);
        var n := ChunkLength(rest);
        if rest[n - 1] != '\n' && n < MAX_LINE - 1 { break; }
        var _ := LoadLine(rest[..n]);
        rest := rest[n..];
      }
      if rest == [] { NothingRemains(text, lines); }
    }

    method GetString(key: string, default_: string) returns (r: string)
      requires Valid()
      ensures IsLookup(start, lines, key, default_, r)
    {
      hide Less, IsLookup;
      FirstDefinitionWins(start, lines, key, default_);
      var k := LowerBound(content, key);
      KeyAtLowerBound(content, key, k);
      if k != |content| && content[k].key == key {
        r := content[k].value;
      } else {
        r := default_;
      }
    }
  }

  /** The lines seen so far and those still in the text are those of the whole text. */
  ghost predicate Remaining(text: string, lines: seq<string>, rest: string) { lines + Chunks(rest) == Chunks(text) }

  lemma NoLines(prefix: string, text: string)
    ensures Content(prefix, []) == map[] && PrefixAfter(prefix, []) == prefix
    ensures Sorted([]) && Holds([], map[]) && Remaining(text, [], text)
  {
    hide Chunks;
  }

  lemma NextChunk(text: string, lines: seq<string>, rest: string)
    requires rest != [] && Remaining(text, lines, rest)
    ensures var n := ChunkLength(rest);
            if rest[n - 1] != '\n' && n < MAX_LINE - 1 then lines == Chunks(text)
            else Remaining(text, lines + [rest[..n]], rest[n..])
  {
    var n := ChunkLength(rest);
    if !(rest[n - 1] != '\n' && n < MAX_LINE - 1) {
      var tail := Chunks(rest[n..]);
      assert Chunks(rest) == [rest[..n]] + tail;
      assert (lines + [rest[..n]]) + tail == lines + ([rest[..n]] + tail);
    }
  }

  lemma NothingRemains(text: string, lines: seq<string>)
    requires Remaining(text, lines, [])
    ensures lines == Chunks(text)
  {}

  lemma AppendLine(start: string, lines: seq<string>, buffer: string)
    ensures var l := Parse(PrefixAfter(start, lines), buffer);
            && PrefixAfter(start, lines + [buffer]) == (if l.Section? then l.prefix else PrefixAfter(start, lines))
            && Content(start, lines + [buffer])
               == if l.Pair? then InsertAbsent(Content(start, lines), l.item) else Content(start, lines)
  {
    hide Parse;
    assert (lines + [buffer])[..|lines|] == lines;
  }

  /** Both engines, given the same lines, answer every question alike. */
  method AskBoth(a: MapConfig, b: VecConfig, key: string, default_: string) returns (r: string, r': string)
    requires a.Valid() && b.Valid() && a.start == b.start && a.lines == b.lines
    ensures r == r' && IsLookup(a.start, a.lines, key, default_, r)
  {
    r := a.GetString(key, default_);
    r' := b.GetString(key, default_);
    LookupIsUnique(a.start, a.lines, key, default_, r, r');
  }
}
