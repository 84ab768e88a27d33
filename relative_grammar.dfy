/**
 * A declarative statement of the relative form "now + N unit" and the proof
 * that the recognizer of TimeResolver accepts exactly the strings it
 * describes, with the offset it describes.
 */
module RelativeGrammar {
  import opened Wrappers
  import opened TimeResolver

  /**
   * One way of cutting a lower-cased input into the pieces of
   * `now\s*\+\s*(\d+)\s*(second|minute|hour)`, followed by any text at all.
   */
  datatype Parts = Parts(space1: string, space2: string, digits: string, space3: string, unit: Unit, rest: string)

  ghost predicate AllIn(s: string, inClass: char -> bool) {
    forall i :: 0 <= i < |s| ==> inClass(s[i])
  }

  ghost predicate WellFormed(p: Parts) {
    AllIn(p.space1, IsSpace) && AllIn(p.space2, IsSpace) && AllIn(p.space3, IsSpace)
    && |p.digits| > 0 && AllIn(p.digits, IsDigit)
  }

  function Assemble(p: Parts): string {
    "now" + (p.space1 + ("+" + (p.space2 + (p.digits + (p.space3 + (UnitWord(p.unit) + p.rest))))))
  }

  /** `t` is a derivation of the relative form. */
  ghost predicate Derives(t: string, p: Parts) {
    WellFormed(p) && t == Assemble(p)
  }

  /** The offset a derivation denotes. */
  function Denotation(p: Parts): nat {
    DecimalValue(p.digits) * SecondsPer(p.unit)
  }

  /** A greedy run stops exactly where a prefix of class characters ends. */
  lemma SkipPrefix(x: string, y: string, inClass: char -> bool)
    requires AllIn(x, inClass)
    requires |y| > 0 && !inClass(y[0])
    ensures LeadingRun(x + y, inClass) == |x|
    ensures Skip(x + y, inClass) == y
  {
    assert (x + y)[|x|] == y[0];
  }

  lemma UnitAtWord(u: Unit, rest: string)
    ensures UnitAt(UnitWord(u) + rest) == Some(u)
  {
    var s := UnitWord(u) + rest;
    assert s[0] == UnitWord(u)[0];
  }

  /** After optional spaces, the unit group finds the unit word that follows them. */
  lemma UnitComplete(space3: string, u: Unit, rest: string)
    requires AllIn(space3, IsSpace)
    ensures |space3 + (UnitWord(u) + rest)| > 0 && !IsDigit((space3 + (UnitWord(u) + rest))[0])
    ensures UnitAt(Skip(space3 + (UnitWord(u) + rest), IsSpace)) == Some(u)
  {
    var t6 := UnitWord(u) + rest;
    assert t6[0] == UnitWord(u)[0];
    assert (space3 + t6)[0] == if |space3| > 0 then space3[0] else t6[0];
    SkipPrefix(space3, t6, IsSpace);
    UnitAtWord(u, rest);
  }

  /** `MatchAmount` accepts digits, spaces and a unit word, whatever follows. */
  lemma AmountComplete(d: string, space3: string, u: Unit, rest: string)
    requires |d| > 0 && AllIn(d, IsDigit) && AllIn(space3, IsSpace)
    ensures MatchAmount(d + (space3 + (UnitWord(u) + rest))) == Some(Capture(DecimalValue(d), u))
  {
    var t5 := space3 + (UnitWord(u) + rest);
    UnitComplete(space3, u, rest);
    SkipPrefix(d, t5, IsDigit);
    assert (d + t5)[..|d|] == d;
  }

  /** `MatchPlus` accepts a plus sign, spaces and what `MatchAmount` accepts. */
  lemma PlusComplete(space2: string, d: string, space3: string, u: Unit, rest: string)
    requires |d| > 0 && AllIn(d, IsDigit) && AllIn(space2, IsSpace) && AllIn(space3, IsSpace)
    ensures MatchPlus("+" + (space2 + (d + (space3 + (UnitWord(u) + rest))))) == Some(Capture(DecimalValue(d), u))
  {
    var b := d + (space3 + (UnitWord(u) + rest));
    var a := "+" + (space2 + b);
    assert a[1..] == space2 + b;
    assert b[0] == d[0];
    SkipPrefix(space2, b, IsSpace);
    AmountComplete(d, space3, u, rest);
  }

  /** Every derivation is matched, with its digits and unit as the captures. */
  lemma MatchComplete(t: string, p: Parts)
    requires Derives(t, p)
    ensures MatchRelative(t) == Some(Capture(DecimalValue(p.digits), p.unit))
  {
    var a := "+" + (p.space2 + (p.digits + (p.space3 + (UnitWord(p.unit) + p.rest))));
    assert t == "now" + (p.space1 + a);
    assert t[..3] == "now";
    assert t[3..] == p.space1 + a;
    SkipPrefix(p.space1, a, IsSpace);
    PlusComplete(p.space2, p.digits, p.space3, p.unit, p.rest);
  }

  /** Every derivation is accepted, with the offset it denotes. */
  lemma Complete(s: string, p: Parts)
    requires Derives(Lower(s), p)
    ensures RelativeOffset(s) == Some(Denotation(p))
  {
    var c := Capture(DecimalValue(p.digits), p.unit);
    MatchComplete(Lower(s), p);
    assert RelativeOffset(s) == Some(Seconds(c));
  }

  lemma SplitAt(s: string, k: nat)
    requires k <= |s|
    ensures s == s[..k] + s[k..]
  {
  }

  /** A greedy run and what it leaves make up the whole string. */
  lemma RunSplit(s: string, inClass: char -> bool) returns (run: string)
    ensures AllIn(run, inClass)
    ensures s == run + Skip(s, inClass)
  {
    run := s[..LeadingRun(s, inClass)];
    SplitAt(s, |run|);
  }

  /** Cuts a string that `MatchAmount` accepts into digits, spaces, unit and rest. */
  lemma AmountSound(b: string) returns (d: string, space3: string, u: Unit, rest: string)
    requires MatchAmount(b).Some?
    ensures |d| > 0 && AllIn(d, IsDigit) && AllIn(space3, IsSpace)
    ensures b == d + (space3 + (UnitWord(u) + rest))
  {
    d := RunSplit(b, IsDigit);
    var r3 := Skip(b, IsDigit);
    space3 := RunSplit(r3, IsSpace);
    var c := Skip(r3, IsSpace);
    u := UnitAt(c).value;
    rest := UnitSplit(c, u);
  }

  /** A unit word found by `UnitAt` and what follows it make up the whole string. */
  lemma UnitSplit(c: string, u: Unit) returns (rest: string)
    requires UnitAt(c) == Some(u)
    ensures c == UnitWord(u) + rest
  {
    var w := UnitWord(u);
    rest := c[|w|..];
    SplitAt(c, |w|);
    assert c[..|w|] == w;
  }

  /** Cuts a string that `MatchPlus` accepts into its pieces. */
  lemma PlusSound(a: string) returns (space2: string, d: string, space3: string, u: Unit, rest: string)
    requires |a| > 0 && a[0] == '+' && MatchAmount(Skip(a[1..], IsSpace)).Some?
    ensures |d| > 0 && AllIn(d, IsDigit) && AllIn(space2, IsSpace) && AllIn(space3, IsSpace)
    ensures a == "+" + (space2 + (d + (space3 + (UnitWord(u) + rest))))
  {
    var r2 := a[1..];
    space2 := RunSplit(r2, IsSpace);
    d, space3, u, rest := AmountSound(Skip(r2, IsSpace));
    SplitAt(a, 1);
    assert a[..1] == "+";
  }

  /** What a successful match says about each stage of the pattern. */
  lemma MatchStages(t: string)
    requires MatchRelative(t).Some?
    ensures "now" <= t
    ensures var a := Skip(t[3..], IsSpace);
      |a| > 0 && a[0] == '+' && MatchAmount(Skip(a[1..], IsSpace)).Some?
  {
  }

  /** Cuts a matched string into the pieces of a derivation. */
  lemma MatchSound(t: string) returns (p: Parts)
    requires MatchRelative(t).Some?
    ensures Derives(t, p)
  {
    MatchStages(t);
    var r1 := t[3..];
    var space1 := RunSplit(r1, IsSpace);
    var space2, d, space3, u, rest := PlusSound(Skip(r1, IsSpace));
    p := Parts(space1, space2, d, space3, u, rest);
    NowPrefix(t);
  }

  lemma NowPrefix(t: string)
    requires "now" <= t
    ensures t == "now" + t[3..]
  {
    SplitAt(t, 3);
  }

  /** Everything accepted is a derivation, and the offset is the one it denotes. */
  lemma Sound(s: string)
    ensures RelativeOffset(s).Some? ==> exists p :: Derives(Lower(s), p) && RelativeOffset(s) == Some(Denotation(p))
  {
    if RelativeOffset(s).Some? {
      var p := MatchSound(Lower(s));
      Complete(s, p);
    }
  }

  /** The recognizer rejects exactly the inputs that have no derivation. */
  lemma NoneIffUnderivable(s: string)
    ensures RelativeOffset(s).None? <==> forall p :: !Derives(Lower(s), p)
  {
    if RelativeOffset(s).Some? {
      Sound(s);
    } else {
      forall p | Derives(Lower(s), p) ensures false {
        Complete(s, p);
      }
    }
  }

  /** Every derivation of one input denotes the same offset. */
  lemma DerivationsAgree(s: string, p: Parts, q: Parts)
    requires Derives(Lower(s), p) && Derives(Lower(s), q)
    ensures Denotation(p) == Denotation(q)
  {
    Complete(s, p);
    Complete(s, q);
  }

  lemma LowerIdempotent(s: string)
    ensures Lower(Lower(s)) == Lower(s)
  {
  }

  lemma LowerAppend(s: string, x: string)
    ensures Lower(s + x) == Lower(s) + Lower(x)
  {
  }

  /** Matching ignores letter case: an input and its lower-cased form give the same offset. */
  lemma CaseInsensitive(s: string)
    ensures RelativeOffset(Lower(s)) == RelativeOffset(s)
  {
    LowerIdempotent(s);
  }

  /** Text added after the rest of a derivation lands in its rest. */
  lemma AppendToRest(p: Parts, x: string)
    ensures Assemble(p.(rest := p.rest + x)) == Assemble(p) + x
  {
    var w := UnitWord(p.unit);
    assert w + (p.rest + x) == (w + p.rest) + x;
  }

  /** Only a prefix must match: text after a match never changes the offset. */
  lemma TrailingTextIgnored(s: string, x: string)
    ensures RelativeOffset(s).Some? ==> RelativeOffset(s + x) == RelativeOffset(s)
  {
    if RelativeOffset(s).Some? {
      var p := MatchSound(Lower(s));
      Complete(s, p);
      var q := p.(rest := p.rest + Lower(x));
      LowerAppend(s, x);
      AppendToRest(p, Lower(x));
      Complete(s + x, q);
    }
  }

  /** No unit word ends in `s`, so neither does a derivation with an empty rest. */
  lemma NoFinalS(p: Parts)
    requires p.rest == []
    ensures Assemble(p)[|Assemble(p)| - 1] != 's'
  {
    var w := UnitWord(p.unit);
    var x := Assemble(p);
    assert x == "now" + (p.space1 + ("+" + (p.space2 + (p.digits + (p.space3 + w)))));
    assert x[|x| - 1] == w[|w| - 1];
  }

  /** A derivation whose text ends in `s` keeps that `s` in its rest, since no unit word ends in `s`. */
  lemma DropFinalS(p: Parts, t: string)
    requires Derives(t + "s", p)
    ensures |p.rest| > 0
    ensures Derives(t, p.(rest := p.rest[..|p.rest| - 1]))
  {
    var x := Assemble(p);
    if |p.rest| == 0 {
      assert x[|x| - 1] == 's';
      NoFinalS(p);
    }
    var q := p.(rest := p.rest[..|p.rest| - 1]);
    assert q.(rest := q.rest + [p.rest[|p.rest| - 1]]) == p;
    AppendToRest(q, [p.rest[|p.rest| - 1]]);
    assert Assemble(q) == x[..|x| - 1];
  }

  lemma LowerS(t: string)
    ensures Lower(t + "s") == Lower(t) + "s"
  {
    LowerAppend(t, "s");
    var s := "s";
    assert LowerChar(s[0]) == 's';
    assert Lower(s) == s;
  }

  /** An input accepted with a final `s` is accepted without it, with the same offset. */
  lemma FinalSDropped(t: string)
    requires RelativeOffset(t + "s").Some?
    ensures RelativeOffset(t) == RelativeOffset(t + "s")
  {
    var p := MatchSound(Lower(t + "s"));
    LowerS(t);
    DropFinalS(p, Lower(t));
    Complete(t + "s", p);
    Complete(t, p.(rest := p.rest[..|p.rest| - 1]));
  }

  /** The optional `s` after the unit never matters: with or without it, the result is the same. */
  lemma OptionalS(t: string)
    ensures RelativeOffset(t + "s") == RelativeOffset(t)
  {
    if RelativeOffset(t + "s").Some? {
      FinalSDropped(t);
    } else {
      TrailingTextIgnored(t, "s");
    }
  }

  /** "second" and "seconds" (and likewise for minutes and hours) give the same result after any prefix. */
  lemma PluralUnit(pre: string, u: Unit)
    ensures RelativeOffset(pre + UnitWord(u) + "s") == RelativeOffset(pre + UnitWord(u))
  {
    OptionalS(pre + UnitWord(u));
  }
}

module RelativeExamples {
  import opened Wrappers
  import opened TimeResolver
  import opened RelativeGrammar

  /** "now + 5 seconds" is five seconds from now. */
  lemma FiveSeconds(s: string)
    requires s == "now + 5 seconds"
    ensures RelativeOffset(s) == Some(5)
  {
    var p := Parts(" ", " ", "5", " ", Second, "s");
    assert Derives(Lower(s), p) by {
      assert Lower(s) == s == Assemble(p);
    }
    assert Denotation(p) == 5 by {
      assert "5"[..0] == "";
    }
    Complete(s, p);
  }

  /** Upper case and missing spaces are accepted: "NOW+2HOURS" is 7200 seconds. */
  lemma TwoHoursUpperCase(s: string)
    requires s == "NOW+2HOURS"
    ensures RelativeOffset(s) == Some(7200)
  {
    var p := Parts("", "", "2", "", Hour, "s");
    assert Derives(Lower(s), p) by {
      assert Lower(s) == "now+2hours" == Assemble(p);
    }
    assert Denotation(p) == 7200 by {
      assert "2"[..0] == "";
    }
    Complete(s, p);
  }

  /** A minus sign is not part of the form. */
  lemma MinusRejected(s: string)
    requires s == "now - 5 seconds"
    ensures RelativeOffset(s) == None
  {
    assert Lower(s) == s;
    assert "now" <= s;
    assert s[3..] == " " + "- 5 seconds";
    SkipPrefix(" ", "- 5 seconds", IsSpace);
  }
}
