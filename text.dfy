/** The JavaScript string built-ins the handlers rely on: `String.prototype.trim`,
    `String.prototype.split` with a one-character separator, `Array.prototype.join`,
    and the decimal rendering of a small non-negative integer in a template literal.
    Strings are sequences of Unicode scalar values rather than UTF-16 code units. */
module Text {

  /** The code points `trim` removes: ECMAScript WhiteSpace (TAB, VT, FF, SP, NBSP,
      ZWNBSP and every other category-Zs space) and LineTerminator (LF, CR, LS, PS). */
  predicate IsSpace(c: char) {
    var n := c as int;
    (0x09 <= n <= 0x0D) || n == 0x20 || n == 0xA0 || n == 0x1680 ||
    (0x2000 <= n <= 0x200A) || n == 0x2028 || n == 0x2029 || n == 0x202F ||
    n == 0x205F || n == 0x3000 || n == 0xFEFF
  }

  predicate AllSpace(s: string) {
    forall i :: 0 <= i < |s| ==> IsSpace(s[i])
  }

  /** A string with no whitespace at either end: the shape of every `trim` result. */
  predicate Trimmed(s: string) {
    s == [] || (!IsSpace(s[0]) && !IsSpace(s[|s| - 1]))
  }

  /** `trimStart`: drops the leading whitespace. Its shape is `TrimStartShape`. */
  function TrimStart(s: string): (r: string)
    ensures |r| <= |s|
    decreases |s|
  {
    if |s| > 0 && IsSpace(s[0]) then TrimStart(s[1..]) else s
  }

  /** `trimEnd`: drops the trailing whitespace. Its shape is `TrimEndShape`. */
  function TrimEnd(s: string): (r: string)
    ensures |r| <= |s|
    decreases |s|
  {
    if |s| > 0 && IsSpace(s[|s| - 1]) then TrimEnd(s[..|s| - 1]) else s
  }

  /** `String.prototype.trim`: drops the whitespace at both ends, leaving no whitespace
      at either end. */
  function Trim(s: string): (r: string)
    ensures |r| <= |s|
    ensures Trimmed(r)
  {
    BothEndsTrimmed(s);
    TrimEnd(TrimStart(s))
  }

  /** What `TrimStart` keeps is a suffix that does not start with whitespace, and
      everything before it is whitespace. */
  lemma {:induction false} TrimStartShape(s: string)
    ensures var r := TrimStart(s);
      && r == s[|s| - |r|..]
      && AllSpace(s[..|s| - |r|])
      && (r == [] || !IsSpace(r[0]))
    decreases |s|
  {
    if |s| > 0 && IsSpace(s[0]) {
      var r := TrimStart(s[1..]);
      TrimStartShape(s[1..]);
      assert s[..|s| - |r|] == [s[0]] + s[1..][..|s[1..]| - |r|];
      AllSpaceConcat([s[0]], s[1..][..|s[1..]| - |r|]);
    } else {
      assert s[..0] == [];
    }
  }

  /** What `TrimEnd` keeps is a prefix that does not end with whitespace, and everything
      after it is whitespace. */
  lemma {:induction false} TrimEndShape(s: string)
    ensures var r := TrimEnd(s);
      && r == s[..|r|]
      && AllSpace(s[|r|..])
      && (r == [] || !IsSpace(r[|r| - 1]))
    decreases |s|
  {
    if |s| > 0 && IsSpace(s[|s| - 1]) {
      var r := TrimEnd(s[..|s| - 1]);
      TrimEndShape(s[..|s| - 1]);
      assert s[|r|..] == s[..|s| - 1][|r|..] + [s[|s| - 1]];
      AllSpaceConcat(s[..|s| - 1][|r|..], [s[|s| - 1]]);
    } else {
      assert s[|s|..] == [];
    }
  }

  lemma BothEndsTrimmed(s: string)
    ensures Trimmed(TrimEnd(TrimStart(s)))
  {
    var t := TrimStart(s);
    TrimStartShape(s);
    TrimEndShape(t);
    var r := TrimEnd(t);
    if r != [] {
      assert r[0] == t[0];
    }
  }

  lemma AllSpaceConcat(a: string, b: string)
    requires AllSpace(a) && AllSpace(b)
    ensures AllSpace(a + b)
  {
    forall i | 0 <= i < |a + b| ensures IsSpace((a + b)[i]) {
      if i < |a| { assert (a + b)[i] == a[i]; } else { assert (a + b)[i] == b[i - |a|]; }
    }
  }

  lemma {:induction false} TrimStartOf(lead: string, rest: string)
    requires AllSpace(lead)
    requires rest == [] || !IsSpace(rest[0])
    ensures TrimStart(lead + rest) == rest
    decreases |lead|
  {
    if lead != [] {
      assert (lead + rest)[1..] == lead[1..] + rest;
      TrimStartOf(lead[1..], rest);
    }
  }

  lemma {:induction false} TrimEndOf(rest: string, trail: string)
    requires AllSpace(trail)
    requires rest == [] || !IsSpace(rest[|rest| - 1])
    ensures TrimEnd(rest + trail) == rest
    decreases |trail|
  {
    if trail != [] {
      var s := rest + trail;
      assert s[..|s| - 1] == rest + trail[..|trail| - 1];
      TrimEndOf(rest, trail[..|trail| - 1]);
    }
  }

  /** `trim` is determined by its shape: whitespace around a trimmed core is exactly what
      it removes. */
  lemma TrimOf(lead: string, core: string, trail: string)
    requires AllSpace(lead) && AllSpace(trail) && Trimmed(core)
    ensures Trim(lead + core + trail) == core
  {
    if core == [] {
      assert lead + core + trail == (lead + trail) + [];
      TrimStartOf(lead + trail, []);
    } else {
      assert lead + core + trail == lead + (core + trail);
      TrimStartOf(lead, core + trail);
      TrimEndOf(core, trail);
    }
  }

  /** Every string is its trimmed form surrounded by whitespace. */
  lemma TrimParts(s: string) returns (lead: string, trail: string)
    ensures AllSpace(lead) && AllSpace(trail)
    ensures s == lead + Trim(s) + trail
  {
    var t := TrimStart(s);
    TrimStartShape(s);
    TrimEndShape(t);
    lead := s[..|s| - |t|];
    trail := t[|Trim(s)|..];
    assert s == lead + t;
    assert t == Trim(s) + trail;
  }

  /** `trim` gives the empty string exactly when the input is all whitespace. */
  lemma TrimEmptyIff(s: string)
    ensures Trim(s) == "" <==> AllSpace(s)
  {
    if Trim(s) == "" {
      var lead, trail := TrimParts(s);
      assert s == lead + trail;
      AllSpaceConcat(lead, trail);
    }
    if AllSpace(s) {
      assert s == s + [] + [];
      TrimOf(s, [], []);
    }
  }

  lemma TrimIdempotent(s: string)
    ensures Trim(Trim(s)) == Trim(s)
  {
    assert Trim(s) == [] + Trim(s) + [];
    TrimOf([], Trim(s), []);
  }

  /** Whitespace added around a string does not change what `trim` returns. */
  lemma TrimIgnoresSurroundingSpace(lead: string, s: string, trail: string)
    requires AllSpace(lead) && AllSpace(trail)
    ensures Trim(lead + s + trail) == Trim(s)
  {
    var l, t := TrimParts(s);
    Regroup(lead, l, Trim(s), t, trail);
    AllSpaceConcat(lead, l);
    AllSpaceConcat(t, trail);
    TrimOf(lead + l, Trim(s), t + trail);
  }

  lemma Regroup(a: string, b: string, c: string, d: string, e: string)
    ensures a + (b + c + d) + e == (a + b) + c + (d + e)
  {
  }

  /** Splitting at a one-character separator: the maximal separator-free pieces,
      in order; an empty string splits into one empty piece. */
  function Split(s: string, sep: char): (r: seq<string>)
    ensures |r| >= 1
    ensures forall i :: 0 <= i < |r| ==> sep !in r[i]
    decreases |s|
  {
    if s == [] then [""]
    else
      var rest := Split(s[1..], sep);
      if s[0] == sep then [""] + rest
      else [[s[0]] + rest[0]] + rest[1..]
  }

  /** `Array.prototype.join`: the parts in order, with `sep` between neighbours. */
  function Join(parts: seq<string>, sep: string): (r: string)
    ensures |parts| == 0 ==> r == ""
    ensures |parts| == 1 ==> r == parts[0]
    decreases |parts|
  {
    if |parts| == 0 then ""
    else if |parts| == 1 then parts[0]
    else parts[0] + sep + Join(parts[1..], sep)
  }

  /** Joining one more part appends the separator and that part. */
  lemma {:induction false} JoinSnoc(parts: seq<string>, sep: string, last: string)
    requires |parts| >= 1
    ensures Join(parts + [last], sep) == Join(parts, sep) + sep + last
    decreases |parts|
  {
    if |parts| > 1 {
      assert (parts + [last])[1..] == parts[1..] + [last];
      JoinSnoc(parts[1..], sep, last);
    }
  }

  /** Joining six parts is writing them out with the separator between neighbours. */
  lemma JoinSix(a: string, b: string, c: string, d: string, e: string, f: string, sep: string)
    ensures Join([a, b, c, d, e, f], sep) == a + sep + b + sep + c + sep + d + sep + e + sep + f
  {
    assert [a] + [b] == [a, b];
    JoinSnoc([a], sep, b);
    assert [a, b] + [c] == [a, b, c];
    JoinSnoc([a, b], sep, c);
    assert [a, b, c] + [d] == [a, b, c, d];
    JoinSnoc([a, b, c], sep, d);
    assert [a, b, c, d] + [e] == [a, b, c, d, e];
    JoinSnoc([a, b, c, d], sep, e);
    assert [a, b, c, d, e] + [f] == [a, b, c, d, e, f];
    JoinSnoc([a, b, c, d, e], sep, f);
  }

  /** Splitting at a separator splits the two sides independently. */
  lemma {:induction false} SplitConcat(a: string, sep: char, b: string)
    ensures Split(a + [sep] + b, sep) == Split(a, sep) + Split(b, sep)
    decreases |a|
  {
    if a == [] {
      assert a + [sep] + b == [sep] + b;
      assert ([sep] + b)[1..] == b;
    } else {
      assert (a + [sep] + b)[1..] == a[1..] + [sep] + b;
      SplitConcat(a[1..], sep, b);
    }
  }

  lemma {:induction false} SplitWithoutSeparator(s: string, sep: char)
    requires sep !in s
    ensures Split(s, sep) == [s]
    decreases |s|
  {
    if s != [] {
      assert sep !in s[1..] by {
        forall i | 0 <= i < |s[1..]| ensures s[1..][i] != sep { assert s[1..][i] == s[i + 1]; }
      }
      SplitWithoutSeparator(s[1..], sep);
      assert [s[0]] + s[1..] == s;
    }
  }

  /** Round trip: splitting a join of separator-free parts gives the parts back. */
  lemma {:induction false} SplitJoin(parts: seq<string>, sep: char)
    requires |parts| >= 1
    requires forall i :: 0 <= i < |parts| ==> sep !in parts[i]
    ensures Split(Join(parts, [sep]), sep) == parts
    decreases |parts|
  {
    if |parts| == 1 {
      SplitWithoutSeparator(parts[0], sep);
    } else {
      SplitJoin(parts[1..], sep);
      SplitConcat(parts[0], sep, Join(parts[1..], [sep]));
      SplitWithoutSeparator(parts[0], sep);
      assert parts == [parts[0]] + parts[1..];
    }
  }

  /** Round trip the other way: joining the pieces of a split gives the string back. */
  lemma {:induction false} JoinSplit(s: string, sep: char)
    ensures Join(Split(s, sep), [sep]) == s
    decreases |s|
  {
    if s != [] {
      JoinSplit(s[1..], sep);
      var rest := Split(s[1..], sep);
      if s[0] == sep {
        assert ([""] + rest)[1..] == rest;
      } else {
        var r := [[s[0]] + rest[0]] + rest[1..];
        if |rest| == 1 {
          assert s == [s[0]] + s[1..];
        } else {
          assert r[1..] == rest[1..];
          assert Join(rest, [sep]) == rest[0] + [sep] + Join(rest[1..], [sep]);
          assert s == [s[0]] + s[1..];
        }
      }
    }
  }

  /** Every piece trimmed, at the same index. */
  function TrimAll(pieces: seq<string>): (r: seq<string>)
    ensures |r| == |pieces|
    ensures forall i :: 0 <= i < |pieces| ==> r[i] == Trim(pieces[i])
    decreases |pieces|
  {
    if pieces == [] then [] else [Trim(pieces[0])] + TrimAll(pieces[1..])
  }

  /** Splitting `w` followed by the parts joined with "; " at `;` and trimming every
      piece gives back the parts, when each part is trimmed and free of `;` and `w` is
      whitespace. */
  lemma {:induction false} TrimmedPiecesOfJoin(w: string, parts: seq<string>)
    requires AllSpace(w)
    requires |parts| >= 1
    requires forall i :: 0 <= i < |parts| ==> ';' !in parts[i] && Trimmed(parts[i])
    ensures TrimAll(Split(w + Join(parts, "; "), ';')) == parts
    decreases |parts|
  {
    if |parts| == 1 {
      assert Join(parts, "; ") == parts[0];
      TrimmedSinglePiece(w, parts[0]);
    } else {
      var rest := parts[1..];
      TrimmedPiecesOfJoin(" ", rest);
      TrimmedPiecesStep(w, parts[0], rest);
      assert parts == [parts[0]] + rest;
    }
  }

  lemma TrimmedSinglePiece(w: string, p: string)
    requires AllSpace(w)
    requires ';' !in p && Trimmed(p)
    ensures Split(w + p, ';') == [w + p]
    ensures TrimAll(Split(w + p, ';')) == [p]
  {
    SpaceThenPartHasNoSemicolon(w, p);
    SplitWithoutSeparator(w + p, ';');
    assert w + p == w + p + [];
    TrimOf(w, p, []);
  }

  lemma TrimmedPiecesStep(w: string, p: string, rest: seq<string>)
    requires AllSpace(w)
    requires ';' !in p && Trimmed(p)
    requires |rest| >= 1
    requires TrimAll(Split(" " + Join(rest, "; "), ';')) == rest
    ensures TrimAll(Split(w + Join([p] + rest, "; "), ';')) == [p] + rest
  {
    var parts := [p] + rest;
    assert parts[0] == p && parts[1..] == rest;
    var tail := " " + Join(rest, "; ");
    JoinStep(w, parts);
    SplitConcat(w + p, ';', tail);
    TrimmedSinglePiece(w, p);
    TrimAllConcat([w + p], Split(tail, ';'));
  }

  lemma SpaceThenPartHasNoSemicolon(w: string, p: string)
    requires AllSpace(w) && ';' !in p
    ensures ';' !in w + p
  {
    forall i | 0 <= i < |w + p| ensures (w + p)[i] != ';' {
      if i < |w| { assert IsSpace(w[i]); } else { assert (w + p)[i] == p[i - |w|]; }
    }
  }

  lemma {:induction false} TrimAllConcat(a: seq<string>, b: seq<string>)
    ensures TrimAll(a + b) == TrimAll(a) + TrimAll(b)
    decreases |a|
  {
    if a == [] {
      assert a + b == b;
    } else {
      assert (a + b)[1..] == a[1..] + b;
      TrimAllConcat(a[1..], b);
    }
  }

  lemma JoinStep(w: string, parts: seq<string>)
    requires |parts| > 1
    ensures w + Join(parts, "; ") == (w + parts[0]) + [';'] + (" " + Join(parts[1..], "; "))
  {
    var tail := Join(parts[1..], "; ");
    assert Join(parts, "; ") == parts[0] + "; " + tail;
    JoinRegroup(w, parts[0], tail);
  }

  lemma JoinRegroup(w: string, p: string, tail: string)
    ensures w + (p + "; " + tail) == (w + p) + [';'] + (" " + tail)
  {
  }

  function DigitChar(d: nat): (c: char)
    requires d < 10
    ensures '0' <= c <= '9'
  {
    ['0', '1', '2', '3', '4', '5', '6', '7', '8', '9'][d]
  }

  /** The decimal digits of a non-negative integer. This is JavaScript's rendering of
      a number in a template literal only for integers below 2^53, where a double holds
      them exactly; the handlers render only the session lifetime 28800. */
  function NatToString(n: nat): (r: string)
    ensures |r| >= 1
    ensures forall i :: 0 <= i < |r| ==> '0' <= r[i] <= '9'
  {
    if n < 10 then [DigitChar(n)] else NatToString(n / 10) + [DigitChar(n % 10)]
  }
}
