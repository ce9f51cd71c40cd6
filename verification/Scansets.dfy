/** What a scanset of `_doscan` denotes: the union of its single characters and its ranges
    (src/_doscan.c:552-579). */
module Scansets {
  import opened Numerals
  import opened ScanSpec

  datatype Part = One(c: char) | Span(lo: char, hi: char)

  /** 7-bit characters without a meaning of their own inside a set. */
  predicate IsPlain(c: char) {
    c != '\0' && c != ']' && c != '-' && c as int < 128
  }

  predicate ValidPart(p: Part) {
    match p
    case One(c) => IsPlain(c)
    case Span(lo, hi) => IsPlain(lo) && IsPlain(hi) && lo <= hi
  }

  predicate ValidParts(ps: seq<Part>) {
    forall i :: 0 <= i < |ps| ==> ValidPart(ps[i])
  }

  function PartText(p: Part): string {
    match p
    case One(c) => [c]
    case Span(lo, hi) => [lo, '-', hi]
  }

  /** The parts as they stand in a format, with `tail` behind them. */
  function PartsText(ps: seq<Part>, tail: string): string {
    if ps == [] then tail else PartText(ps[0]) + PartsText(ps[1..], tail)
  }

  predicate InPart(p: Part, c: char) {
    match p
    case One(d) => c == d
    case Span(lo, hi) => lo <= c <= hi
  }

  predicate InParts(ps: seq<Part>, c: char) {
    exists i :: 0 <= i < |ps| && InPart(ps[i], c)
  }

  /** The end of a set: a '-' as the last character stands for itself. */
  function SetEnd(dash: bool, tail: string): string {
    if dash then ['-', ']'] + tail else [']'] + tail
  }

  lemma {:induction false} RangeHolds(t: set<char>, lo: nat, hi: nat, c: char)
    requires hi < 128
    ensures c in WithRange(t, lo, hi) <==> c in t || lo <= c as int <= hi
    decreases 128 - lo
  {
    if lo <= hi {
      RangeHolds(Marked(t, lo as char), lo + 1, hi, c);
    }
  }

  lemma SpanHolds(t: set<char>, lo: char, hi: char, c: char)
    requires lo <= hi && hi as int < 128
    ensures c in WithRange(Marked(t, lo), lo as int + 1, hi as int) <==> c in t || lo <= c <= hi
  {
    RangeHolds(Marked(t, lo), lo as int + 1, hi as int, c);
  }

  lemma InPartsCons(ps: seq<Part>, c: char)
    requires ps != []
    ensures InParts(ps, c) <==> InPart(ps[0], c) || InParts(ps[1..], c)
  {
    if InParts(ps[1..], c) {
      var i :| 0 <= i < |ps[1..]| && InPart(ps[1..][i], c);
      assert InPart(ps[i + 1], c);
    }
    if InParts(ps, c) && !InPart(ps[0], c) {
      var i :| 0 <= i < |ps| && InPart(ps[i], c);
      assert InPart(ps[1..][i - 1], c);
    }
  }

  /** A single character in front of the rest of a set; in front of a final '-' it takes that
      along. */
  lemma OneStep(c: char, rest: string, t: set<char>)
    requires IsPlain(c) && CharAt(rest, 0) != '-'
    ensures TableOf([c] + rest, t) == TableOf(rest, t + {c})
  {
    assert ([c] + rest)[1..] == rest;
  }

  lemma OneBeforeDash(c: char, tail: string, t: set<char>)
    requires IsPlain(c)
    ensures TableOf([c] + (['-', ']'] + tail), t) == TableOf([']'] + tail, t + {c, '-'})
  {
    var f, g := [c] + (['-', ']'] + tail), ['-', ']'] + tail;
    assert f[1..] == g && g[1..] == [']'] + tail;
    assert t + {c} + {'-'} == t + {c, '-'};
  }

  lemma SpanStep(lo: char, hi: char, rest: string, t: set<char>)
    requires IsPlain(lo) && IsPlain(hi) && lo <= hi
    ensures TableOf([lo, '-', hi] + rest, t) == TableOf(rest, WithRange(Marked(t, lo), lo as int + 1, hi as int))
  {
    var f := [lo, '-', hi] + rest;
    assert f[1..] == ['-', hi] + rest && f[1..][1..] == [hi] + rest && ([hi] + rest)[1..] == rest;
  }

  lemma EndStep(tail: string, t: set<char>)
    ensures TableOf([']'] + tail, t) == (t, [']'] + tail)
    ensures TableOf(['-', ']'] + tail, t) == (t + {'-'}, [']'] + tail)
  {
    assert (['-', ']'] + tail)[1..] == [']'] + tail;
  }

  lemma StartOfParts(ps: seq<Part>, tail: string)
    requires ValidParts(ps)
    ensures ps != [] ==> IsPlain(CharAt(PartsText(ps, tail), 0))
    ensures ps == [] ==> PartsText(ps, tail) == tail
  {}

  ghost predicate Denotes(r: (set<char>, string), t: set<char>, ps: seq<Part>, dash: bool, tail: string) {
    && r.1 == [']'] + tail
    && forall c :: c in r.0 <==> c in t || InParts(ps, c) || (dash && c == '-')
  }

  lemma DenotesCons(r: (set<char>, string), t: set<char>, t1: set<char>, ps: seq<Part>, dash: bool, tail: string)
    requires ps != [] && Denotes(r, t1, ps[1..], dash, tail)
    requires forall c :: c in t1 <==> c in t || InPart(ps[0], c)
    ensures Denotes(r, t, ps, dash, tail)
  {
    forall c ensures c in r.0 <==> c in t || InParts(ps, c) || (dash && c == '-') {
      InPartsCons(ps, c);
    }
  }

  lemma LastBeforeDash(ps: seq<Part>, t: set<char>, tail: string)
    requires |ps| == 1 && ValidParts(ps) && ps[0].One?
    ensures Denotes(TableOf(PartsText(ps, SetEnd(true, tail)), t), t, ps, true, tail)
  {
    var c := ps[0].c;
    assert PartsText(ps, SetEnd(true, tail)) == [c] + (['-', ']'] + tail);
    OneBeforeDash(c, tail, t);
    EndStep(tail, t + {c, '-'});
    assert InPart(ps[0], c);
    hide TableOf;
  }

  /** The loop over the set marks what the parts denote, and stops at the closing ']'. */
  lemma {:induction false} TableDenotes(ps: seq<Part>, t: set<char>, dash: bool, tail: string)
    requires ValidParts(ps)
    ensures Denotes(TableOf(PartsText(ps, SetEnd(dash, tail)), t), t, ps, dash, tail)
    decreases |ps|
  {
    if ps == [] {
      EndStep(tail, t);
    } else if |ps| == 1 && dash && ps[0].One? {
      LastBeforeDash(ps, t, tail);
    } else {
      var rest := PartsText(ps[1..], SetEnd(dash, tail));
      StartOfParts(ps[1..], SetEnd(dash, tail));
      var t1 := match ps[0]
                case One(c) => t + {c}
                case Span(lo, hi) => WithRange(Marked(t, lo), lo as int + 1, hi as int);
      hide TableOf;
      match ps[0] {
        case One(c) =>
          OneStep(c, rest, t);
        case Span(lo, hi) =>
          SpanStep(lo, hi, rest, t);
          forall c ensures c in t1 <==> c in t || InPart(ps[0], c) {
            SpanHolds(t, lo, hi, c);
          }
      }
      TableDenotes(ps[1..], t1, dash, tail);
      DenotesCons(TableOf(rest, t1), t, t1, ps, dash, tail);
    }
  }

  /** For every set written as an optional '^', an optional ']', single characters and ranges,
      and an optional '-': it denotes exactly those characters, inverted if '^' is there. */
  lemma ScansetDenotes(reverse: bool, bracket: bool, ps: seq<Part>, dash: bool, tail: string, f: string)
    requires ValidParts(ps) && (bracket || ps != [] || dash)
    requires !reverse && !bracket && ps != [] ==> CharAt(PartText(ps[0]), 0) != '^'
    requires f == (if reverse then "^" else "") + ((if bracket then "]" else "") + PartsText(ps, SetEnd(dash, tail)))
    ensures var (r, t, rest) := ScansetOf(f);
            && r == reverse && rest == [']'] + tail
            && forall c :: c in t <==> (bracket && c == ']') || InParts(ps, c) || (dash && c == '-')
  {
    var body := PartsText(ps, SetEnd(dash, tail));
    var f1 := (if bracket then "]" else "") + body;
    StartOfParts(ps, SetEnd(dash, tail));
    assert CharAt(f, 0) == if reverse then '^' else CharAt(f1, 0);
    assert f1 == if reverse then f[1..] else f;
    assert body == if bracket then f1[1..] else f1;
    TableDenotes(ps, if bracket then {']'} else {}, dash, tail);
    hide TableOf, PartsText;
  }
}
