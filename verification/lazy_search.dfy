/**
 `re.search` for the one regular-expression shape the parser uses:
 a fixed run of atoms, a lazy group `(.+?)`, another fixed run of atoms.
 An atom is a literal character or `.`, which matches any character but a
 newline. Python's backtracking engine tries start positions from left to
 right and, at each, group lengths from one upwards; the first success is
 the match. `Search` computes exactly that, and `SearchIsLeftmostShortest`
 characterises its result without reference to the search order.
 */
module LazySearch {
  import opened Python

  datatype Atom = Lit(c: char) | AnyChar

  predicate AtomMatches(a: Atom, ch: char) {
    match a
    case Lit(c) => ch == c
    case AnyChar => ch != '\n'
  }

  /** The atoms of a literal string. */
  function Literal(s: string): (atoms: seq<Atom>)
    ensures |atoms| == |s|
    ensures forall k :: 0 <= k < |s| ==> atoms[k] == Lit(s[k])
  {
    seq(|s|, k requires 0 <= k < |s| => Lit(s[k]))
  }

  /** The regular expression `before(.+?)after`. */
  datatype Pattern = Pattern(before: seq<Atom>, after: seq<Atom>)

  /** The atoms match `s` starting at position `i`. */
  predicate AtomsAt(atoms: seq<Atom>, s: string, i: nat) {
    i + |atoms| <= |s| && forall k :: 0 <= k < |atoms| ==> AtomMatches(atoms[k], s[i + k])
  }

  /** No newline in `s[lo..hi]`. */
  predicate NoNewline(s: string, lo: nat, hi: nat)
    requires lo <= hi <= |s|
  {
    forall k :: lo <= k < hi ==> s[k] != '\n'
  }

  /** A group of `n` characters starting at `g` can be followed by `after`. */
  predicate GroupAt(p: Pattern, s: string, g: nat, n: nat) {
    1 <= n && g + n <= |s| && NoNewline(s, g, g + n) && AtomsAt(p.after, s, g + n)
  }

  /** The whole pattern matches at `i` with a group of `n` characters. */
  predicate MatchAt(p: Pattern, s: string, i: nat, n: nat) {
    AtomsAt(p.before, s, i) && GroupAt(p, s, i + |p.before|, n)
  }

  /** The lazy group: lengths `n, n + 1, ...` until `after` fits, giving up at
      a newline or at the end of the string. */
  function GroupLength(p: Pattern, s: string, g: nat, n: nat): Option<nat>
    requires 1 <= n
    decreases |s| - g - n
  {
    if g + n > |s| then None
    else if s[g + n - 1] == '\n' then None
    else if AtomsAt(p.after, s, g + n) then Some(n)
    else GroupLength(p, s, g, n + 1)
  }

  /** Start positions `i, i + 1, ...`: the first match and its group length. */
  function SearchFrom(p: Pattern, s: string, i: nat): Option<(nat, nat)>
    decreases |s| - i
  {
    if i >= |s| then None
    else if AtomsAt(p.before, s, i) && GroupLength(p, s, i + |p.before|, 1).Some? then
      Some((i, GroupLength(p, s, i + |p.before|, 1).value))
    else SearchFrom(p, s, i + 1)
  }

  /** `re.search(pattern, s)`: start position and group length of the match. */
  function SearchMatch(p: Pattern, s: string): Option<(nat, nat)> {
    SearchFrom(p, s, 0)
  }

  /** `re.search(pattern, s).group(1)`, or `None` when nothing matches. */
  function Search(p: Pattern, s: string): (r: Option<string>)
    ensures r.Some? ==> |r.value| >= 1 && '\n' !in r.value
  {
    match SearchMatch(p, s)
    case None => None
    case Some((i, n)) =>
      SearchIsLeftmostShortest(p, s);
      var g := i + |p.before|;
      Some(s[g..g + n])
  }

  lemma {:induction false} GroupLengthSpec(p: Pattern, s: string, g: nat, n: nat)
    requires 1 <= n
    requires g + n - 1 <= |s| && NoNewline(s, g, g + n - 1)
    ensures match GroupLength(p, s, g, n)
      case Some(m) =>
        n <= m && GroupAt(p, s, g, m) && forall m' :: n <= m' < m ==> !GroupAt(p, s, g, m')
      case None => forall m' :: n <= m' ==> !GroupAt(p, s, g, m')
    decreases |s| - g - n
  {
    if g + n > |s| {
    } else if s[g + n - 1] == '\n' {
    } else if AtomsAt(p.after, s, g + n) {
    } else {
      GroupLengthSpec(p, s, g, n + 1);
    }
  }

  lemma {:induction false} SearchFromSpec(p: Pattern, s: string, i: nat)
    ensures match SearchFrom(p, s, i)
      case Some((j, n)) =>
        && i <= j && MatchAt(p, s, j, n)
        && (forall j': nat, n': nat :: i <= j' < j ==> !MatchAt(p, s, j', n'))
        && (forall n': nat :: n' < n ==> !MatchAt(p, s, j, n'))
      case None => forall j': nat, n': nat :: i <= j' ==> !MatchAt(p, s, j', n')
    decreases |s| - i
  {
    if i < |s| {
      NoMatchHere(p, s, i);
      if !(AtomsAt(p.before, s, i) && GroupLength(p, s, i + |p.before|, 1).Some?) {
        SearchFromSpec(p, s, i + 1);
      }
    }
  }

  /** What the search learns at one start position: the shortest group
      there, or that there is none. */
  lemma NoMatchHere(p: Pattern, s: string, i: nat)
    ensures AtomsAt(p.before, s, i) && GroupLength(p, s, i + |p.before|, 1).Some? ==>
      var n := GroupLength(p, s, i + |p.before|, 1).value;
      MatchAt(p, s, i, n) && forall n': nat :: n' < n ==> !MatchAt(p, s, i, n')
    ensures !(AtomsAt(p.before, s, i) && GroupLength(p, s, i + |p.before|, 1).Some?) ==>
      forall n': nat :: !MatchAt(p, s, i, n')
  {
    var g := i + |p.before|;
    if AtomsAt(p.before, s, i) && g <= |s| {
      GroupLengthSpec(p, s, g, 1);
    }
  }

  /** The match `re.search` reports is the leftmost position at which the
      pattern matches at all, with the shortest group possible there; and
      there is no match exactly when the pattern matches nowhere. */
  lemma SearchIsLeftmostShortest(p: Pattern, s: string)
    ensures match SearchMatch(p, s)
      case Some((i, n)) =>
        && MatchAt(p, s, i, n)
        && (forall i': nat, n': nat :: i' < i ==> !MatchAt(p, s, i', n'))
        && (forall n': nat :: n' < n ==> !MatchAt(p, s, i, n'))
      case None => forall i': nat, n': nat :: !MatchAt(p, s, i', n')
  {
    SearchFromSpec(p, s, 0);
  }

  /** Once the search has reached a start position where the pattern
      matches, `Search` reports that position's shortest group. */
  lemma SearchFindsAt(p: Pattern, s: string, i: nat, n: nat)
    requires i + |p.before| + n <= |s|
    requires SearchFrom(p, s, 0) == SearchFrom(p, s, i)
    requires AtomsAt(p.before, s, i) && GroupLength(p, s, i + |p.before|, 1) == Some(n)
    ensures Search(p, s) == Some(s[i + |p.before|..i + |p.before| + n])
  {
  }

  /** A run of literal atoms matches exactly where the literal text occurs. */
  lemma LiteralAt(lit: string, s: string, i: nat)
    ensures AtomsAt(Literal(lit), s, i) <==> i + |lit| <= |s| && s[i..i + |lit|] == lit
  {
    if i + |lit| <= |s| && s[i..i + |lit|] == lit {
      forall k | 0 <= k < |lit|
        ensures AtomMatches(Literal(lit)[k], s[i + k])
      {
        assert s[i..i + |lit|][k] == s[i + k];
      }
    }
    if AtomsAt(Literal(lit), s, i) {
      forall k | 0 <= k < |lit|
        ensures s[i..i + |lit|][k] == lit[k]
      {
        assert AtomMatches(Literal(lit)[k], s[i + k]);
      }
    }
  }

  /** Start positions at which `before` does not match are passed over. */
  lemma {:induction false} SearchFromSkip(p: Pattern, s: string, i: nat, j: nat)
    requires i <= j
    requires forall k: nat :: i <= k < j ==> !AtomsAt(p.before, s, k)
    ensures SearchFrom(p, s, i) == SearchFrom(p, s, j)
    decreases j - i
  {
    if i < j {
      SearchFromSkip(p, s, i + 1, j);
    }
  }

  /** Group lengths after which `after` does not match are passed over, as
      long as the group meets no newline. */
  lemma {:induction false} GroupLengthSkip(p: Pattern, s: string, g: nat, n: nat, m: nat)
    requires 1 <= n <= m && g + m <= |s|
    requires forall k :: g + n - 1 <= k < g + m - 1 ==> s[k] != '\n'
    requires forall k: nat :: g + n <= k < g + m ==> !AtomsAt(p.after, s, k)
    ensures GroupLength(p, s, g, n) == GroupLength(p, s, g, m)
    decreases m - n
  {
    if n < m {
      GroupLengthSkip(p, s, g, n + 1, m);
    }
  }
}
