/**
 * The string-ladder puzzle (StringsConfiguration.java): a current string and a
 * finish string; one move replaces one character of the current string by the
 * next or the previous letter, cyclically from 'Z' to 'A' and back.  The
 * puzzle is solved when the current string equals the finish string.
 *
 * Java characters are 16-bit UTF-16 code units and the `(char)` casts wrap
 * around, so a character is a `CodeUnit` in [0, 0x10000) and the arithmetic
 * outside 'A'..'Z' is written out modulo 0x10000.
 */
module Strings {
  import opened Configuration
  import opened Bfs
  import opened BfsProperties

  newtype CodeUnit = x: int | 0 <= x < 0x1_0000

  const CapitalA: CodeUnit := 0x41
  const CapitalZ: CodeUnit := 0x5A

  predicate IsLetter(ch: CodeUnit)
  {
    CapitalA <= ch <= CapitalZ
  }

  predicate AllLetters(s: seq<CodeUnit>)
  {
    forall k :: 0 <= k < |s| ==> IsLetter(s[k])
  }

  /** `getNextCharacter`: 'Z' goes to 'A', every other code unit to the following one
      (0xFFFF wraps to 0). */
  function Next(ch: CodeUnit): (r: CodeUnit)
    ensures r != ch
    ensures IsLetter(ch) ==> IsLetter(r)
  {
    if ch == CapitalZ then CapitalA else ((ch as int + 1) % 0x1_0000) as CodeUnit
  }

  /** `getPreviousCharacter`: 'A' goes to 'Z', every other code unit to the one before
      (0 wraps to 0xFFFF). */
  function Prev(ch: CodeUnit): (r: CodeUnit)
    ensures r != ch
    ensures IsLetter(ch) ==> IsLetter(r)
  {
    if ch == CapitalA then CapitalZ else ((ch as int - 1) % 0x1_0000) as CodeUnit
  }

  /** Stepping back undoes stepping forward, except at '@', whose successor 'A' steps
      back to 'Z'. */
  lemma PrevAfterNext(ch: CodeUnit)
    ensures Prev(Next(ch)) == ch <==> ch != CapitalA - 1
  {
  }

  /** Stepping forward undoes stepping back, except at '[', whose predecessor 'Z' steps
      forward to 'A'. */
  lemma NextAfterPrev(ch: CodeUnit)
    ensures Next(Prev(ch)) == ch <==> ch != CapitalZ + 1
  {
  }

  /** On the letters 'A'..'Z' the two steps stay among the letters and undo each other. */
  lemma LettersCycle(ch: CodeUnit)
    requires IsLetter(ch)
    ensures IsLetter(Next(ch)) && IsLetter(Prev(ch))
    ensures Prev(Next(ch)) == ch && Next(Prev(ch)) == ch
  {
    PrevAfterNext(ch);
    NextAfterPrev(ch);
  }

  datatype StringsConfig = StringsConfig(current: seq<CodeUnit>, finish: seq<CodeUnit>)

  predicate IsSolution(c: StringsConfig)
  {
    c.current == c.finish
  }

  /** The configuration with character `i` of the current string replaced by `ch`. */
  function Replace(c: StringsConfig, i: int, ch: CodeUnit): StringsConfig
    requires 0 <= i < |c.current|
  {
    StringsConfig(c.current[i := ch], c.finish)
  }

  /** The neighbours of the first `k` positions: for each position in increasing order,
      the next-character variant and then the previous-character variant. */
  function NeighborsUpTo(c: StringsConfig, k: nat): (ns: seq<StringsConfig>)
    requires k <= |c.current|
    ensures |ns| == 2 * k
    ensures forall i :: 0 <= i < k ==>
              && ns[2 * i] == Replace(c, i, Next(c.current[i]))
              && ns[2 * i + 1] == Replace(c, i, Prev(c.current[i]))
  {
    if k == 0 then []
    else
      var i := k - 1;
      NeighborsUpTo(c, i) + [Replace(c, i, Next(c.current[i])), Replace(c, i, Prev(c.current[i]))]
  }

  /** Exactly two neighbours per position of the current string. */
  function Neighbors(c: StringsConfig): (ns: seq<StringsConfig>)
    ensures |ns| == 2 * |c.current|
  {
    NeighborsUpTo(c, |c.current|)
  }

  /** A neighbour keeps the length and the finish string and changes exactly one
      position, to the next or the previous character; and every such change is a
      neighbour. */
  lemma NeighborsExactly(c: StringsConfig, n: StringsConfig)
    ensures n in Neighbors(c) <==>
      exists i :: 0 <= i < |c.current| && (n == Replace(c, i, Next(c.current[i])) || n == Replace(c, i, Prev(c.current[i])))
  {
    var ns := Neighbors(c);
    if n in ns {
      var j :| 0 <= j < |ns| && ns[j] == n;
      var i := j / 2;
      assert ns[2 * i] == Replace(c, i, Next(c.current[i])) && ns[2 * i + 1] == Replace(c, i, Prev(c.current[i]));
      assert j == 2 * i || j == 2 * i + 1;
    }
    if i :| 0 <= i < |c.current| && (n == Replace(c, i, Next(c.current[i])) || n == Replace(c, i, Prev(c.current[i]))) {
      if n == Replace(c, i, Next(c.current[i])) {
        assert n == ns[2 * i];
      } else {
        assert n == ns[2 * i + 1];
      }
    }
  }

  /** `s` and `t` have the same length and agree everywhere except perhaps at `i`. */
  predicate DiffersAt(s: seq<CodeUnit>, t: seq<CodeUnit>, i: int)
  {
    |s| == |t| && 0 <= i < |s| && forall k :: 0 <= k < |s| && k != i ==> s[k] == t[k]
  }

  /** A neighbour has the same finish string and a current string of the same length
      that differs at one position only; letters stay letters. */
  lemma NeighborShape(c: StringsConfig, n: StringsConfig)
    requires n in Neighbors(c)
    ensures n.finish == c.finish && |n.current| == |c.current|
    ensures exists i :: DiffersAt(c.current, n.current, i)
    ensures AllLetters(c.current) ==> AllLetters(n.current)
  {
    NeighborsExactly(c, n);
    var i :| 0 <= i < |c.current| && (n == Replace(c, i, Next(c.current[i])) || n == Replace(c, i, Prev(c.current[i])));
    assert DiffersAt(c.current, n.current, i);
    if AllLetters(c.current) {
      LettersCycle(c.current[i]);
    }
  }

  /** Builds the neighbour list as the program does: for each position, the string with
      the character replaced by its successor and by its predecessor, each assembled
      from the prefix, the new character and the suffix. */
  method GetNeighbors(c: StringsConfig) returns (ns: seq<StringsConfig>)
    ensures ns == Neighbors(c)
  {
    var s := c.current;
    ns := [];
    for i := 0 to |s|
      invariant ns == NeighborsUpTo(c, i)
    {
      var currentChar := s[i];
      var nextChar := Next(currentChar);
      var prevChar := Prev(currentChar);
      var nextString := s[..i] + [nextChar] + s[i + 1..];
      var prevString := s[..i] + [prevChar] + s[i + 1..];
      assert nextString == s[i := nextChar] && prevString == s[i := prevChar];
      ns := ns + [StringsConfig(nextString, c.finish), StringsConfig(prevString, c.finish)];
    }
  }

  /** Configurations are equal when their current strings are; the finish string is
      not compared. */
  predicate Equals(a: StringsConfig, b: StringsConfig): (r: bool)
    ensures a.finish == b.finish ==> (r <==> a == b)
  {
    a.current == b.current
  }

  /** The string-ladder puzzle as the solver sees it. */
  function StringsPuzzle(): Puzzle<StringsConfig>
  {
    Puzzle(IsSolution, Neighbors)
  }

  /** Everything a search reaches has the start's finish string and length, and is
      made of letters if the start is. */
  lemma {:induction false} ReachKeeps(start: StringsConfig, j: nat, n: StringsConfig)
    requires n in Reach(StringsPuzzle(), start, j)
    ensures n.finish == start.finish && |n.current| == |start.current|
    ensures AllLetters(start.current) ==> AllLetters(n.current)
  {
    var p := StringsPuzzle();
    if j > 0 && n !in Reach(p, start, j - 1) {
      var u, k :| u in Reach(p, start, j - 1) && 0 <= k < |p.neighbors(u)| && p.neighbors(u)[k] == n;
      ReachKeeps(start, j - 1, u);
      NeighborShape(u, n);
    } else if j > 0 {
      ReachKeeps(start, j - 1, n);
    }
  }

  /** Since the finish string never changes during a search, comparing only the
      current strings, as `equals` does, is the same as comparing whole
      configurations: the solver's deduplication by value is the program's. */
  lemma EqualsOnReach(start: StringsConfig, j: nat, k: nat, a: StringsConfig, b: StringsConfig)
    requires a in Reach(StringsPuzzle(), start, j) && b in Reach(StringsPuzzle(), start, k)
    ensures Equals(a, b) <==> a == b
  {
    ReachKeeps(start, j, a);
    ReachKeeps(start, k, b);
  }

  // ---------------------------------------------------------------------------
  // The search space

  /** The strings of length `n`. */
  ghost function Words(n: nat): set<seq<CodeUnit>>
  {
    if n == 0 then {[]} else set w, ch: CodeUnit | w in Words(n - 1) && 0 <= ch <= 0xFFFF :: w + [ch]
  }

  lemma {:induction false} InWords(n: nat, s: seq<CodeUnit>)
    ensures s in Words(n) <==> |s| == n
  {
    if n > 0 {
      if |s| == n {
        var w, ch := s[..n - 1], s[n - 1];
        InWords(n - 1, w);
        assert s == w + [ch];
      }
      if s in Words(n) {
        var w, ch :| w in Words(n - 1) && 0 <= ch <= 0xFFFF && s == w + [ch];
        InWords(n - 1, w);
      }
    }
  }

  /** The configurations over strings of length `n` with finish string `finish`. */
  ghost function Configs(n: nat, finish: seq<CodeUnit>): set<StringsConfig>
  {
    set w | w in Words(n) :: StringsConfig(w, finish)
  }

  /** No move leaves the configurations of a fixed length and finish string. */
  lemma ConfigsClosed(n: nat, finish: seq<CodeUnit>)
    ensures Closed(StringsPuzzle(), Configs(n, finish))
  {
    var p := StringsPuzzle();
    forall u, k | u in Configs(n, finish) && 0 <= k < |p.neighbors(u)|
      ensures p.neighbors(u)[k] in Configs(n, finish)
    {
      var v := p.neighbors(u)[k];
      InWords(n, u.current);
      NeighborShape(u, v);
      InWords(n, v.current);
    }
  }

  /** A search from any start configuration terminates, and its outcome is a shortest
      solution or the proof that none is reachable. */
  lemma StringsSearchFinished(start: StringsConfig)
    ensures start in Configs(|start.current|, start.finish)
    ensures Closed(StringsPuzzle(), Configs(|start.current|, start.finish))
    ensures Finished(StringsPuzzle(), start,
                     Run(StringsPuzzle(), Configs(|start.current|, start.finish), Start(start)))
  {
    InWords(|start.current|, start.current);
    ConfigsClosed(|start.current|, start.finish);
    SearchFinished(StringsPuzzle(), Configs(|start.current|, start.finish), start);
  }
}
