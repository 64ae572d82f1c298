/** Regular expressions of the one shape the schema uses: anchored at both ends
    (`^...$`), a concatenation of character classes each repeated a fixed number
    of times (`\d{4}`, `-`, `[0-9a-f]{8}`). */
module Pattern {

  /** A character class: `\d` (ASCII digits only, as in JavaScript), a hexadecimal
      digit of either case, or one literal character. */
  datatype Atom = Digit | HexDigit | Literal(c: char)

  /** `atom{count}` */
  datatype Piece = Piece(atom: Atom, count: nat)

  predicate IsAsciiDigit(c: char) {
    '0' <= c <= '9'
  }

  predicate IsHexDigit(c: char) {
    IsAsciiDigit(c) || 'a' <= c <= 'f' || 'A' <= c <= 'F'
  }

  predicate AtomMatches(a: Atom, c: char) {
    match a
    case Digit => IsAsciiDigit(c)
    case HexDigit => IsHexDigit(c)
    case Literal(l) => c == l
  }

  /** The pattern written out one atom per character position. */
  function Expand(p: seq<Piece>): (e: seq<Atom>)
    ensures |e| == Width(p)
  {
    if p == [] then [] else seq(p[0].count, _ => p[0].atom) + Expand(p[1..])
  }

  /** The number of characters every match of `p` has. */
  function Width(p: seq<Piece>): nat {
    if p == [] then 0 else p[0].count + Width(p[1..])
  }

  /** Whether the whole of `s` matches `p` (the regular expression `^p$`). */
  predicate Matches(p: seq<Piece>, s: string)
    ensures Matches(p, s) ==> |s| == Width(p)
  {
    if p == [] then s == []
    else
      && p[0].count <= |s|
      && (forall i :: 0 <= i < p[0].count ==> AtomMatches(p[0].atom, s[i]))
      && Matches(p[1..], s[p[0].count..])
  }

  /** Position `i` of an expanded pattern lies in its first piece or in the rest. */
  lemma ExpandAt(p: seq<Piece>, i: int)
    requires p != [] && 0 <= i < Width(p)
    ensures Expand(p)[i] == if i < p[0].count then p[0].atom else Expand(p[1..])[i - p[0].count]
  {
  }

  /** Matching piece by piece is the same as matching the expanded pattern
      position by position. */
  lemma {:induction false} MatchesExpanded(p: seq<Piece>, s: string)
    ensures Matches(p, s) <==>
              |s| == |Expand(p)| && forall i :: 0 <= i < |s| ==> AtomMatches(Expand(p)[i], s[i])
  {
    if p != [] {
      var n, e := p[0].count, Expand(p);
      if n <= |s| {
        var rest := Expand(p[1..]);
        MatchesExpanded(p[1..], s[n..]);
        if |s| == |e| {
          forall i | 0 <= i < |s|
            ensures e[i] == if i < n then p[0].atom else rest[i - n]
            ensures i >= n ==> s[i] == s[n..][i - n]
          {
            ExpandAt(p, i);
          }
          forall i | 0 <= i < |s[n..]| ensures e[n + i] == rest[i] && s[n..][i] == s[n + i] {
          }
        }
      }
    }
  }
}
