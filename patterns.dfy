/** A backtracking matcher for the fixed regular expressions of the scan
    reader, with the JavaScript semantics they depend on: alternatives and
    greedy counted repetitions tried in order, one capture group, and
    `String.prototype.match` with and without the global flag. */
module Patterns {
  import opened Common

  predicate IsUpper(c: char) { 'A' <= c <= 'Z' }

  predicate IsLower(c: char) { 'a' <= c <= 'z' }

  /** The class `[-\/\.]`. */
  predicate IsDateSep(c: char) { c == '-' || c == '/' || c == '.' }

  /** The character classes the patterns use. `AnyCaseAlnum` is
      `[A-Z0-9]` under the `i` flag and `Letter(l)` a keyword letter under
      the `i` flag. */
  datatype CharClass = Digit | Upper | AnyCaseAlnum | DateSep | SpaceOrColon | Letter(l: char)

  predicate InClass(c: char, k: CharClass) {
    match k
    case Digit => IsDigit(c)
    case Upper => IsUpper(c)
    case AnyCaseAlnum => IsUpper(c) || IsLower(c) || IsDigit(c)
    case DateSep => IsDateSep(c)
    case SpaceOrColon => IsSpace(c) || c == ':'
    case Letter(l) => LowerChar(c) == LowerChar(l)
  }

  /** A regular expression: a class, a sequence, an alternative, a
      repetition `{min,max}` (no `max` is unbounded) and the capture group. */
  datatype Regex =
    | Cls(k: CharClass)
    | Cat(a: Regex, b: Regex)
    | Or(a: Regex, b: Regex)
    | Rep(r: Regex, min: nat, max: Option<nat>)
    | Grp(r: Regex)

  /** A way to match: where the match ends and what the group captured. */
  datatype Hit = Hit(end: nat, group: Option<(nat, nat)>)

  predicate HitIn(h: Hit, i: nat, n: nat) {
    i <= h.end <= n && (h.group.Some? ==> i <= h.group.value.0 <= h.group.value.1 <= h.end)
  }

  /** Every hit in `hs` lies between `i` and `n`. */
  predicate AllIn(hs: seq<Hit>, i: nat, n: nat) {
    forall k :: 0 <= k < |hs| ==> HitIn(hs[k], i, n)
  }

  /** The hits of each way to go on, one after another. */
  function Flatten(ss: seq<seq<Hit>>, i: nat, n: nat): (r: seq<Hit>)
    requires forall k :: 0 <= k < |ss| ==> AllIn(ss[k], i, n)
    ensures AllIn(r, i, n)
  {
    if ss == [] then []
    else
      var head := ss[0];
      var tail := Flatten(ss[1..], i, n);
      assert AllIn(head, i, n);
      var r := head + tail;
      forall k | 0 <= k < |r| ensures HitIn(r[k], i, n) {
        if k < |head| {
          assert r[k] == head[k];
        } else {
          assert r[k] == tail[k - |head|];
        }
      }
      r
  }

  /** The hit `h` continued by each hit `rest` of what follows; a group
      captured later replaces an earlier one. */
  function Extend(h: Hit, rest: seq<Hit>, i: nat, n: nat): (r: seq<Hit>)
    requires HitIn(h, i, n) && AllIn(rest, h.end, n)
    ensures |r| == |rest| && AllIn(r, i, n)
  {
    seq(|rest|, k requires 0 <= k < |rest| => Hit(rest[k].end, if rest[k].group.Some? then rest[k].group else h.group))
  }

  /** Every way `r` matches `s` from position `i`, in the order the
      backtracking matcher tries them. A repetition tries one more round
      before stopping (it is greedy), and a round that consumes nothing
      ends it. */
  function Hits(r: Regex, s: string, i: nat): (hs: seq<Hit>)
    requires i <= |s|
    ensures AllIn(hs, i, |s|)
    decreases |s| - i, r
  {
    match r
    case Cls(k) => if i < |s| && InClass(s[i], k) then [Hit(i + 1, None)] else []
    case Cat(a, b) =>
      var ha := Hits(a, s, i);
      Flatten(seq(|ha|, n requires 0 <= n < |ha| => Extend(ha[n], Hits(b, s, ha[n].end), i, |s|)), i, |s|)
    case Or(a, b) => Hits(a, s, i) + Hits(b, s, i)
    case Grp(x) =>
      var hx := Hits(x, s, i);
      seq(|hx|, n requires 0 <= n < |hx| => Hit(hx[n].end, Some((i, hx[n].end))))
    case Rep(x, min, max) =>
      if max == Some(0) then (if min == 0 then [Hit(i, None)] else [])
      else
        var again := Rep(x, if min > 0 then min - 1 else 0, if max.Some? then Some(max.value - 1) else None);
        var hx := Hits(x, s, i);
        var more := Flatten(seq(|hx|, n requires 0 <= n < |hx| =>
                                  if hx[n].end > i then Extend(hx[n], Hits(again, s, hx[n].end), i, |s|) else []), i, |s|);
        if min == 0 then more + [Hit(i, None)] else more
  }

  /** Where a search finds its first match. */
  datatype Found = Found(start: nat, hit: Hit)

  /** The leftmost position from `from` on where `r` matches, with its first
      hit. */
  function FirstMatch(r: Regex, s: string, from: nat): (f: Option<Found>)
    requires from <= |s|
    ensures f.Some? ==> from <= f.value.start && HitIn(f.value.hit, f.value.start, |s|)
    ensures f.Some? ==> Hits(r, s, f.value.start) != [] && f.value.hit == Hits(r, s, f.value.start)[0]
    ensures f.None? <==> forall p :: from <= p <= |s| ==> Hits(r, s, p) == []
    ensures f.Some? ==> forall p :: from <= p < f.value.start ==> Hits(r, s, p) == []
    decreases |s| - from
  {
    var hs := Hits(r, s, from);
    if hs != [] then Some(Found(from, hs[0]))
    else if from == |s| then None
    else FirstMatch(r, s, from + 1)
  }

  predicate SubstringOf(m: string, s: string) {
    exists a, b :: 0 <= a <= b <= |s| && s[a..b] == m
  }

  /** `s.match(r)` with the global flag: every match from left to right,
      each search resuming where the previous match ended (one further
      after an empty match). */
  function AllMatches(r: Regex, s: string, from: nat): (ms: seq<string>)
    requires from <= |s|
    ensures forall m :: m in ms ==> SubstringOf(m, s)
    decreases |s| - from
  {
    var f := FirstMatch(r, s, from);
    if f.None? then []
    else
      var m := s[f.value.start..f.value.hit.end];
      if f.value.hit.end > f.value.start then [m] + AllMatches(r, s, f.value.hit.end)
      else if f.value.start < |s| then [m] + AllMatches(r, s, f.value.start + 1)
      else [m]
  }

  /** A pattern with its global flag. */
  datatype Pattern = Pattern(re: Regex, global: bool)

  /** What `line.match(p)` contributes to a candidate list: every match
      with the global flag; group 1 of the first match without it. */
  function Matched(p: Pattern, s: string): (ms: seq<string>)
    ensures forall m :: m in ms ==> SubstringOf(m, s)
    ensures !p.global ==> |ms| <= 1
  {
    if p.global then AllMatches(p.re, s, 0)
    else
      var f := FirstMatch(p.re, s, 0);
      if f.Some? && f.value.hit.group.Some? then
        var g := f.value.hit.group.value;
        [s[g.0..g.1]]
      else []
  }

  /** A keyword under the `i` flag. */
  function Word(w: string): (r: Regex)
    requires w != []
    decreases |w|
  {
    if |w| == 1 then Cls(Letter(w[0])) else Cat(Cls(Letter(w[0])), Word(w[1..]))
  }

  function Between(k: CharClass, lo: nat, hi: nat): Regex {
    Rep(Cls(k), lo, Some(hi))
  }
}
