/** The command line's strings: white space is removed in place, and arguments are counted. */
module CmdLine {

  // ---- words ------------------------------------------------------------------------------------

  predicate IsWord(w: seq<char>) { w != [] && ' ' !in w }

  predicate AllWords(ws: seq<seq<char>>) { forall i | 0 <= i < |ws| :: IsWord(ws[i]) }

  predicate AllSpaces(t: seq<char>) { forall k | 0 <= k < |t| :: t[k] == ' ' }

  /** The words of a text. */
  function Words(t: seq<char>): (ws: seq<seq<char>>)
    ensures t != [] && t[0] != ' ' ==> ws != []
  {
    if t == [] then []
    else if t[0] == ' ' then Words(t[1..])
    else
      var ws := Words(t[1..]);
      if |t| == 1 || t[1] == ' ' then [[t[0]]] + ws else [[t[0]] + ws[0]] + ws[1..]
  }

  lemma {:induction false} WordsAreWords(t: seq<char>)
    ensures AllWords(Words(t))
  {
    if t != [] { WordsAreWords(t[1..]); }
  }

  /** Words, each with a space behind it. */
  function Spaced(ws: seq<seq<char>>): seq<char> {
    if ws == [] then [] else Spaced(ws[..|ws| - 1]) + ws[|ws| - 1] + [' ']
  }

  /** Words with single spaces between them. */
  function Join(ws: seq<seq<char>>): seq<char> {
    if ws == [] then [] else Spaced(ws[..|ws| - 1]) + ws[|ws| - 1]
  }

  /** A word in front of a space, or of nothing, is the first of the words. */
  lemma {:induction false} WordsFront(w: seq<char>, t: seq<char>)
    requires IsWord(w) && (t == [] || t[0] == ' ')
    ensures Words(w + t) == [w] + Words(t)
  {
    assert (w + t)[1..] == w[1..] + t;
    assert w[0] in w;
    if |w| == 1 {
      assert w[1..] + t == t && w == [w[0]];
    } else {
      assert w[1] in w && forall c | c in w[1..] :: c in w;
      WordsFront(w[1..], t);
      assert w == [w[0]] + w[1..];
    }
  }

  lemma WordsSkip(t: seq<char>)
    ensures Words([' '] + t) == Words(t)
  {
    assert ([' '] + t)[1..] == t;
  }

  lemma {:induction false} WordsSkipAll(gap: seq<char>, t: seq<char>)
    requires AllSpaces(gap)
    ensures Words(gap + t) == Words(t)
  {
    if gap == [] {
      assert gap + t == t;
    } else {
      assert (gap + t)[1..] == gap[1..] + t;
      WordsSkipAll(gap[1..], t);
    }
  }

  lemma NoWords()
    ensures Words([]) == []
  {
  }

  /** A text is cut into its words at the spaces ... */
  lemma {:induction false} WordsCut(a: seq<char>, b: seq<char>)
    ensures Words(a + [' '] + b) == Words(a) + Words(b)
    decreases |a|
  {
    var t := a + [' '] + b;
    if a == [] {
      assert t == [' '] + b;
      WordsSkip(b);
      NoWords();
      assert Words(a) + Words(b) == Words(b);
    } else {
      hide Words;
      WordsCut(a[1..], b);
      CutFront(a, b);
      WordsStep(a);
      WordsStep(t);
      SpliceFront(a[0], Words(a[1..]), Words(b));
    }
  }

  lemma CutFront(a: seq<char>, b: seq<char>)
    requires a != []
    ensures var t := a + [' '] + b;
            t[1..] == a[1..] + [' '] + b && t[0] == a[0] && t[1] == if |a| > 1 then a[1] else ' '
  {
  }

  lemma SpliceFront(c: char, ws: seq<seq<char>>, vs: seq<seq<char>>)
    ensures [[c]] + (ws + vs) == [[c]] + ws + vs
    ensures ws != [] ==> [[c] + (ws + vs)[0]] + (ws + vs)[1..] == [[c] + ws[0]] + ws[1..] + vs
  {
  }

  lemma WordsStep(t: seq<char>)
    requires t != []
    ensures t[0] == ' ' ==> Words(t) == Words(t[1..])
    ensures t[0] != ' ' && (|t| == 1 || t[1] == ' ') ==> Words(t) == [[t[0]]] + Words(t[1..])
    ensures t[0] != ' ' && |t| > 1 && t[1] != ' ' ==>
              Words(t[1..]) != [] && Words(t) == [[t[0]] + Words(t[1..])[0]] + Words(t[1..])[1..]
  {
  }

  /** ... and nowhere else. */
  lemma WordsWhole(w: seq<char>)
    ensures ' ' !in w ==> Words(w) == if w == [] then [] else [w]
  {
    NoWords();
    if ' ' !in w && w != [] {
      WordsFront(w, []);
      assert w + [] == w && [w] + [] == [w];
    }
  }

  lemma JoinOne(w: seq<char>)
    ensures Join([w]) == w
  {
  }

  /** Joining words and taking the result apart gives the words back. */
  lemma {:induction false} WordsOfJoin(ws: seq<seq<char>>)
    requires AllWords(ws)
    ensures Words(Join(ws)) == ws
  {
    if ws != [] {
      var front, w := ws[..|ws| - 1], ws[|ws| - 1];
      assert Join(ws) == Spaced(front) + w;
      hide Words, Spaced, Join;
      assert ws == front + [w] && w in ws;
      WordsFront(w, []);
      NoWords();
      assert w + [] == w && [w] + [] == [w];
      WordsOfSpaced(front, w);
    } else {
      NoWords();
    }
  }

  lemma Regroup<T>(s: seq<T>, t: seq<T>)
    requires s != []
    ensures s[..|s| - 1] + ([s[|s| - 1]] + t) == s + t
  {
  }

  lemma Associate<T>(a: seq<T>, b: seq<T>, c: seq<T>, d: seq<T>)
    ensures a + b + c + d == a + (b + (c + d))
  {
  }

  lemma SpacedLast(ws: seq<seq<char>>, t: seq<char>)
    requires ws != []
    ensures Spaced(ws) + t == Spaced(ws[..|ws| - 1]) + (ws[|ws| - 1] + ([' '] + t))
  {
    Associate(Spaced(ws[..|ws| - 1]), ws[|ws| - 1], [' '], t);
  }

  lemma {:induction false} WordsOfSpaced(ws: seq<seq<char>>, t: seq<char>)
    requires AllWords(ws)
    ensures Words(Spaced(ws) + t) == ws + Words(t)
    decreases |ws|
  {
    if ws == [] {
      assert Spaced(ws) + t == t;
    } else {
      hide Words, Spaced, IsWord;
      var front, w, u := ws[..|ws| - 1], ws[|ws| - 1], [' '] + t;
      WordsOfSpaced(front, w + u);
      SpacedLast(ws, t);
      WordsFront(w, u);
      WordsSkip(t);
      Regroup(ws, Words(t));
    }
  }

  /** The text with its words in order, single spaces between them and none around them. */
  function Normal(t: seq<char>): seq<char> { Join(Words(t)) }

  lemma NormalIsIdempotent(t: seq<char>)
    ensures Normal(Normal(t)) == Normal(t) && Words(Normal(t)) == Words(t)
  {
    WordsAreWords(t);
    WordsOfJoin(Words(t));
  }

  /** It is normal exactly if it has no space at an end and no two together. */
  predicate Tidy(t: seq<char>) {
    && (t != [] ==> t[0] != ' ' && t[|t| - 1] != ' ')
    && forall k | 0 <= k < |t| - 1 :: t[k] != ' ' || t[k + 1] != ' '
  }

  lemma {:induction false} JoinIsTidy(ws: seq<seq<char>>)
    requires AllWords(ws)
    ensures Tidy(Join(ws))
    ensures ws != [] ==> Join(ws) != [] && Spaced(ws) == Join(ws) + [' ']
  {
    if |ws| > 0 {
      var front, w := ws[..|ws| - 1], ws[|ws| - 1];
      JoinIsTidy(front);
      assert w[0] in w && w[|w| - 1] in w;
      assert forall k | 0 <= k < |w| :: w[k] in w;
    }
  }

  lemma {:induction false} TidyIsNormal(t: seq<char>)
    requires Tidy(t)
    ensures Normal(t) == t
    decreases |t|
  {
    hide Words, Tidy, Spaced, IsWord;
    NoWords();
    if t != [] {
      var w, rest := TidySplit(t);
      if t == w {
        WordsFront(w, []);
        assert w + [] == w && [w] + [] == [w];
        JoinOne(w);
      } else {
        TidyIsNormal(rest);
        WordsFront(w, [' '] + rest);
        WordsSkip(rest);
        assert Words(rest) != [] by { assert Join([]) == []; }
        JoinFront(w, Words(rest));
      }
    }
  }

  lemma {:induction false} FirstWord(t: seq<char>) returns (w: seq<char>, rest: seq<char>)
    requires t != [] && t[0] != ' '
    ensures IsWord(w) && t == w + rest && (rest == [] || rest[0] == ' ')
  {
    if |t| == 1 || t[1] == ' ' {
      w, rest := [t[0]], t[1..];
    } else {
      w, rest := FirstWord(t[1..]);
      w := [t[0]] + w;
    }
  }

  lemma TidySplit(t: seq<char>) returns (w: seq<char>, rest: seq<char>)
    requires t != [] && Tidy(t)
    ensures IsWord(w) && (t == w || (t == w + ([' '] + rest) && rest != [] && Tidy(rest)))
    ensures |rest| < |t|
  {
    var more;
    w, more := FirstWord(t);
    rest := [];
    if more != [] {
      rest := more[1..];
      assert more == [' '] + rest && t[|w|] == ' ';
      assert rest != [] by { assert t[|t| - 1] != ' '; }
      assert forall k | 0 <= k < |rest| :: rest[k] == t[|w| + 1 + k];
    } else {
      assert t == w;
    }
  }

  lemma {:induction false} JoinFront(w: seq<char>, ws: seq<seq<char>>)
    requires ws != []
    ensures Join([w] + ws) == w + [' '] + Join(ws)
  {
    var all, front, last := [w] + ws, ws[..|ws| - 1], ws[|ws| - 1];
    assert all[..|all| - 1] == [w] + front && all[|all| - 1] == last;
    assert Join(all) == Spaced([w] + front) + last && Join(ws) == Spaced(front) + last;
    hide Join, Spaced;
    SpacedFront(w, front);
    Associate(w, [' '], Spaced(front), last);
    assert w + [' '] + (Spaced(front) + last) == w + ([' '] + (Spaced(front) + last));
  }

  lemma {:induction false} SpacedFront(w: seq<char>, ws: seq<seq<char>>)
    ensures Spaced([w] + ws) == w + [' '] + Spaced(ws)
  {
    var all := [w] + ws;
    if ws == [] {
      assert all[..0] == [] && all[0] == w;
    } else {
      assert all[..|all| - 1] == [w] + ws[..|ws| - 1];
      SpacedFront(w, ws[..|ws| - 1]);
    }
  }

  lemma NormalIff(t: seq<char>)
    ensures Normal(t) == t <==> Tidy(t)
  {
    WordsAreWords(t);
    JoinIsTidy(Words(t));
    if Tidy(t) { TidyIsNormal(t); }
  }

  // ---- in place -----------------------------------------------------------------------------------

  predicate NoNull(t: seq<char>) { forall k | 0 <= k < |t| :: t[k] != '\0' }

  /** From place p on, the string holds t, ended by a null character. */
  predicate Holds(str: seq<char>, p: nat, t: seq<char>) {
    p + |t| < |str| && str[p..p + |t|] == t && str[p + |t|] == '\0' && NoNull(t)
  }

  lemma HoldsAt(str: seq<char>, p: nat, t: seq<char>, k: nat)
    requires Holds(str, p, t) && k <= |t|
    ensures p + |t| < |str|
    ensures str[p + k] == if k < |t| then t[k] else '\0'
    ensures str[p + k] == '\0' <==> k == |t|
    ensures Holds(str, p + k, t[k..])
  {
    assert k < |t| ==> str[p..p + |t|][k] == t[k];
    assert str[p + k..p + |t|] == str[p..p + |t|][k..];
  }

  predicate NoSpaces(t: seq<char>) { ' ' !in t }

  lemma OneMoreChar(t: seq<char>, n: nat)
    requires n < |t|
    ensures AllSpaces(t[..n + 1]) <==> AllSpaces(t[..n]) && t[n] == ' '
    ensures NoSpaces(t[..n + 1]) <==> NoSpaces(t[..n]) && t[n] != ' '
  {
    assert t[..n + 1] == t[..n] + [t[n]];
  }

  lemma NoChars(t: seq<char>)
    ensures AllSpaces(t[..0]) && NoSpaces(t[..0]) && t[0..] == t
  {
  }

  lemma SplitHere(t: seq<char>, n: nat)
    requires n <= |t|
    ensures t == t[..n] + t[n..] && (t[n..] == [] <==> n == |t|) && (n < |t| ==> t[n..][0] == t[n])
    ensures NoSpaces(t[..n]) ==> ' ' !in t[..n]
  {
  }

  /** Skips spaces. */
  method FindWord(str: array<char>, from: nat, ghost t: seq<char>)
    returns (i: nat, ghost gap: seq<char>, ghost rest: seq<char>)
    requires Holds(str[..], from, t)
    ensures i == from + |gap| && t == gap + rest && AllSpaces(gap) && (rest == [] || rest[0] != ' ')
    ensures Holds(str[..], i, rest)
  {
    hide Holds, AllSpaces;
    i := from;
    ghost var n := 0;
    HoldsAt(str[..], from, t, n);
    NoChars(t);
    while str[i] != '\0'
      invariant i == from + n && n <= |t| && from + |t| < str.Length && AllSpaces(t[..n])
      decreases |t| - n
    {
      HoldsAt(str[..], from, t, n);
      if str[i] != ' ' {
        break;
      }
      OneMoreChar(t, n);
      i, n := i + 1, n + 1;
    }
    HoldsAt(str[..], from, t, n);
    SplitHere(t, n);
    gap, rest := t[..n], t[n..];
  }

  /** Skips a word. */
  method FindSpace(str: array<char>, from: nat, ghost t: seq<char>)
    returns (i: nat, ghost w: seq<char>, ghost rest: seq<char>)
    requires Holds(str[..], from, t)
    ensures i == from + |w| && t == w + rest && ' ' !in w && (rest == [] || rest[0] == ' ')
    ensures Holds(str[..], i, rest)
  {
    hide Holds, AllSpaces, NoSpaces;
    i := from;
    ghost var n := 0;
    HoldsAt(str[..], from, t, n);
    NoChars(t);
    while str[i] != ' ' && str[i] != '\0'
      invariant i == from + n && n <= |t| && from + |t| < str.Length && NoSpaces(t[..n])
      decreases |t| - n
    {
      HoldsAt(str[..], from, t, n);
      OneMoreChar(t, n);
      i, n := i + 1, n + 1;
    }
    HoldsAt(str[..], from, t, n);
    SplitHere(t, n);
    w, rest := t[..n], t[n..];
  }

  /** Copies the rest of the line to an earlier place. */
  method CopyBack(str: array<char>, to: nat, from: nat, ghost r: seq<char>)
    requires to <= from && Holds(str[..], from, r)
    modifies str
    ensures Holds(str[..], to, r)
    ensures forall k | 0 <= k < str.Length && !(to <= k <= to + |r|) :: str[k] == old(str[k])
  {
    var i, j := from, to;
    ghost var was := str[..];
    while str[i] != '\0'
      invariant from <= i <= from + |r| && j == to + (i - from)
      invariant forall k | 0 <= k < str.Length && !(to <= k < j) :: str[k] == was[k]
      invariant forall k | to <= k < j :: str[k] == r[k - to]
      decreases from + |r| - i
    {
      hide Holds;
      HoldsAt(was, from, r, i - from);
      str[j] := str[i];
      i := i + 1;
      j := j + 1;
    }
    HoldsAt(was, from, r, i - from);
    str[j] := '\0';
    assert str[to..j] == r;
  }

  /** The words before `startIdx` are done, with single spaces behind them, and r is the rest. */
  ghost predicate Partly(str: seq<char>, text: seq<char>, startIdx: nat, i: nat, done: seq<seq<char>>, r: seq<char>) {
    && startIdx <= i <= |text| && i + |r| <= |text| && Holds(str, i, r) && r != [] && r[0] != ' '
    && str[..startIdx] == Spaced(done) && NoNull(Spaced(done))
    && Words(text) == done + Words(r)
  }

  /** One word more: what is left of the line, or none if that was the last. */
  method NextWord(str: array<char>, startIdx: nat, i: nat, ghost text: seq<char>, ghost done: seq<seq<char>>,
                  ghost r: seq<char>)
    returns (startIdx': nat, i': nat, more: bool, ghost done': seq<seq<char>>, ghost r': seq<char>)
    requires Partly(str[..], text, startIdx, i, done, r)
    modifies str
    ensures if more then Partly(str[..], text, startIdx', i', done', r') && |r'| < |r|
            else Holds(str[..], 0, Normal(text))
    ensures forall k | |text| < k < str.Length :: str[k] == old(str[k])
  {
    hide Words, Spaced, Holds, NoNull, AllSpaces;
    CopyBack(str, startIdx, i, r);
    HoldsAt(str[..], startIdx, r, 0);
    ghost var w, gap, rest;
    startIdx', w, rest := FindSpace(str, startIdx, r);
    var j;
    j, gap, r' := FindWord(str, startIdx', rest);
    done' := done + [w];
    ghost var line := str[..];
    assert line[..startIdx] == Spaced(done);
    HoldsAt(line, j, r', 0);
    if str[j] == '\0' {
      str[startIdx'] := '\0';
      LastWord(line, text, startIdx, done, r, w, gap);
      assert str[..] == line[startIdx' := '\0'];
      return startIdx', j, false, done', r';
    }
    str[startIdx'] := ' ';
    OneWordMore(line, text, startIdx, startIdx', j, done, r, w, gap, r');
    assert str[..] == line[startIdx' := ' '];
    return startIdx' + 1, j, true, done', r';
  }

  /** What is in front of a place may be ended there, or go on with a space. */
  lemma PutAt(line: seq<char>, a: seq<char>, w: seq<char>, rest: seq<char>, c: char)
    requires Holds(line, |a|, w + rest) && line[..|a|] == a
    ensures var k := |a| + |w|; k < |line| && line[k := c][..k] == a + w && line[k := c][k] == c
  {
    var t, k := w + rest, |a| + |w|;
    assert line[|a|..|a| + |t|][..|w|] == w;
    assert line[..k] == line[..|a|] + line[|a|..|a| + |t|][..|w|];
    assert line[k := c][..k] == line[..k];
  }

  lemma NoNulls(line: seq<char>, a: seq<char>, w: seq<char>, rest: seq<char>)
    requires NoNull(a) && Holds(line, |a|, w + rest)
    ensures NoNull(a + w) && NoNull(a + w + [' '])
  {
    assert forall k | 0 <= k < |w| :: w[k] == (w + rest)[k];
  }

  lemma FrontMore(put: seq<char>, b: seq<char>)
    requires |b| < |put| && put[..|b|] == b && put[|b|] == ' '
    ensures put[..|b| + 1] == b + [' ']
  {
  }

  lemma HoldsBehind(line: seq<char>, p: nat, t: seq<char>, k: nat, c: char)
    requires Holds(line, p, t) && k < p
    ensures Holds(line[k := c], p, t)
  {
    assert line[k := c][p..p + |t|] == line[p..p + |t|];
  }

  lemma WordsOfRest(text: seq<char>, done: seq<seq<char>>, w: seq<char>, gap: seq<char>, rest: seq<char>)
    requires Words(text) == done + Words(w + (gap + rest)) && ' ' !in w && w != [] && AllSpaces(gap)
             && (gap == [] ==> rest == [])
    ensures Words(text) == done + [w] + Words(rest)
  {
    hide Words, AllSpaces;
    assert gap + rest != [] ==> (gap + rest)[0] == ' ' by { SpaceFirst(gap, rest); }
    WordsFront(w, gap + rest);
    WordsSkipAll(gap, rest);
    assert done + ([w] + Words(rest)) == done + [w] + Words(rest);
  }

  lemma SpaceFirst(gap: seq<char>, rest: seq<char>)
    requires AllSpaces(gap) && (gap == [] ==> rest == [])
    ensures gap + rest != [] ==> (gap + rest)[0] == ' '
  {
  }

  /** The end of the string is put behind the last word. */
  lemma LastWord(line: seq<char>, text: seq<char>, startIdx: nat, done: seq<seq<char>>, r: seq<char>, w: seq<char>,
                 gap: seq<char>)
    requires Holds(line, startIdx, r) && r == w + gap && ' ' !in w && w != [] && AllSpaces(gap)
    requires line[..startIdx] == Spaced(done) && NoNull(Spaced(done)) && |Spaced(done)| == startIdx
    requires Words(text) == done + Words(r)
    ensures Holds(line[startIdx + |w| := '\0'], 0, Normal(text))
  {
    hide Words, Spaced, AllSpaces, NoNull;
    assert gap + [] == gap;
    WordsOfRest(text, done, w, gap, []);
    NoWords();
    assert done + [w] + [] == done + [w];
    SpacedMore(done, w);
    PutAt(line, Spaced(done), w, gap, '\0');
    NoNulls(line, Spaced(done), w, gap);
  }

  lemma FrontPut(line: seq<char>, done: seq<seq<char>>, w: seq<char>, t: seq<char>, startIdx: nat, k: nat)
    requires startIdx == |Spaced(done)| && k == startIdx + |w|
    requires Holds(line, startIdx, w + t) && line[..startIdx] == Spaced(done) && NoNull(Spaced(done))
    ensures k < |line| && line[k := ' '][..k + 1] == Spaced(done + [w]) && NoNull(Spaced(done + [w]))
  {
    hide Spaced, Holds, NoNull, Join;
    SpacedMore(done, w);
    PutAt(line, Spaced(done), w, t, ' ');
    NoNulls(line, Spaced(done), w, t);
    FrontMore(line[k := ' '], Spaced(done) + w);
  }

  lemma PartlyIs(str: seq<char>, text: seq<char>, startIdx: nat, i: nat, done: seq<seq<char>>, r: seq<char>)
    requires startIdx <= i && i + |r| <= |text| && Holds(str, i, r) && r != [] && r[0] != ' ' && startIdx <= |str|
    requires str[..startIdx] == Spaced(done) && NoNull(Spaced(done))
    requires Words(text) == done + Words(r)
    ensures Partly(str, text, startIdx, i, done, r)
  {
  }

  /** A space is put at k, behind a word that is not the last; the rest starts at j. */
  lemma OneWordMore(line: seq<char>, text: seq<char>, startIdx: nat, k: nat, j: nat, done: seq<seq<char>>, r: seq<char>,
                    w: seq<char>, gap: seq<char>, rest: seq<char>)
    requires k == startIdx + |w| && j == k + |gap| && startIdx + |r| <= |text|
    requires Holds(line, startIdx, r) && Holds(line, j, rest)
    requires r == w + (gap + rest) && ' ' !in w && w != [] && AllSpaces(gap) && gap != [] && rest != []
             && rest[0] != ' '
    requires line[..startIdx] == Spaced(done) && NoNull(Spaced(done)) && |Spaced(done)| == startIdx
    requires Words(text) == done + Words(r)
    ensures k < |line| && Partly(line[k := ' '], text, k + 1, j, done + [w], rest)
  {
    hide Words, Spaced, AllSpaces, Holds, NoNull, Join, Partly;
    WordsOfRest(text, done, w, gap, rest);
    FrontPut(line, done, w, gap + rest, startIdx, k);
    HoldsBehind(line, j, rest, k, ' ');
    PartlyIs(line[k := ' '], text, k + 1, j, done + [w], rest);
  }

  lemma SpacedMore(done: seq<seq<char>>, w: seq<char>)
    ensures Spaced(done + [w]) == Spaced(done) + w + [' '] && Join(done + [w]) == Spaced(done) + w
  {
    assert (done + [w])[..|done|] == done;
  }

  /** killWhiteSpace, for a string that 16-bit indices reach. */
  method KillWhiteSpace(str: array<char>, ghost text: seq<char>)
    requires str.Length <= 0x1_0000 && Holds(str[..], 0, text)
    modifies str
    ensures Holds(str[..], 0, Normal(text))
    ensures forall k | |text| < k < str.Length :: str[k] == old(str[k])
  {
    var i;
    ghost var gap, r;
    i, gap, r := FindWord(str, 0, text);
    HoldsAt(str[..], i, r, 0);
    WordsSkipAll(gap, r);
    if str[i] == '\0' {
      str[0] := '\0';
      return;
    }
    var startIdx, more := 0, true;
    ghost var done: seq<seq<char>> := [];
    while more
      invariant if more then Partly(str[..], text, startIdx, i, done, r) else Holds(str[..], 0, Normal(text))
      invariant forall k | |text| < k < str.Length :: str[k] == old(str[k])
      decreases more, |r|
    {
      hide Partly, Holds, Words;
      startIdx, i, more, done, r := NextWord(str, startIdx, i, text, done, r);
    }
  }

  /** cntArgs: the spaces and the end of the string. */
  method CountArgs(str: array<char>, ghost text: seq<char>) returns (count: nat)
    requires str.Length <= 0x1_0000 && Holds(str[..], 0, text)
    ensures count == multiset(text)[' '] + 1
  {
    SpacesCounted(text);
    count := 0;
    var i := -1;
    var more := true;
    while more
      invariant -1 <= i <= |text| && (more ==> i < |text|)
      invariant if more then count == SpaceCount(text[..i + 1]) else i == |text| && count == SpaceCount(text) + 1
      decreases |text| - i
    {
      i := i + 1;
      HoldsAt(str[..], 0, text, i);
      assert i < |text| ==> text[..i + 1][..i] == text[..i];
      assert i == |text| ==> text[..i] == text;
      if str[i] == ' ' || str[i] == '\0' {
        count := count + 1;
      }
      more := str[i] != '\0';
    }
  }

  function SpaceCount(t: seq<char>): nat {
    if t == [] then 0 else SpaceCount(t[..|t| - 1]) + if t[|t| - 1] == ' ' then 1 else 0
  }

  lemma {:induction false} SpacesCounted(t: seq<char>)
    ensures SpaceCount(t) == multiset(t)[' ']
  {
    if t != [] {
      SpacesCounted(t[..|t| - 1]);
      assert t == t[..|t| - 1] + [t[|t| - 1]];
    }
  }

  /** After white space is removed that is the number of words, if there are any; of an empty
      string it is one. */
  lemma ArgsAreWords(t: seq<char>)
    ensures multiset(Normal(t))[' '] + 1 == if Words(t) == [] then 1 else |Words(t)|
  {
    SpacesCounted(Normal(t));
    if Words(t) != [] {
      WordsAreWords(t);
      JoinSpaces(Words(t));
    }
  }

  lemma {:induction false} CountMore(a: seq<char>, w: seq<char>)
    requires ' ' !in w
    ensures SpaceCount(a + w) == SpaceCount(a)
  {
    if w == [] {
      assert a + w == a;
    } else {
      assert (a + w)[..|a + w| - 1] == a + w[..|w| - 1];
      assert w[|w| - 1] in w;
      CountMore(a, w[..|w| - 1]);
    }
  }

  lemma {:induction false} JoinSpaces(ws: seq<seq<char>>)
    requires ws != [] && AllWords(ws)
    ensures SpaceCount(Join(ws)) == |ws| - 1 && SpaceCount(Spaced(ws)) == |ws|
  {
    var front, w := ws[..|ws| - 1], ws[|ws| - 1];
    if front != [] { JoinSpaces(front); }
    CountMore(Spaced(front), w);
    var j := Spaced(front) + w;
    assert (j + [' '])[..|j|] == j;
  }
}
