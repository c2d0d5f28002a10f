/** The PHP string functions the providers use, with their PHP meaning:
    ASCII strtolower, trim, explode and implode on one separator, and
    str_replace(', ', ',', ...). */
module Text {

  /** strtolower on one character (ASCII letters only). */
  function LowerChar(c: char): char
  {
    if 'A' <= c <= 'Z' then (c as int - 'A' as int + 'a' as int) as char else c
  }

  /** strtolower. */
  function Lower(s: string): (r: string)
    ensures |r| == |s|
    ensures forall i :: 0 <= i < |s| ==> r[i] == LowerChar(s[i])
  {
    seq(|s|, i requires 0 <= i < |s| => LowerChar(s[i]))
  }

  /** strtolower($a) == strtolower($b). */
  predicate SameName(a: string, b: string)
  {
    Lower(a) == Lower(b)
  }

  /** The characters PHP's trim() strips when given no character list. */
  const PhpWhitespace: set<char> := {' ', '\t', '\n', '\r', '\0', 11 as char}

  /** ltrim($s, $chars). */
  function TrimLeft(s: string, cs: set<char>): string
    decreases |s|
  {
    if |s| > 0 && s[0] in cs then TrimLeft(s[1..], cs) else s
  }

  /** rtrim($s, $chars). */
  function TrimRight(s: string, cs: set<char>): string
    decreases |s|
  {
    if |s| > 0 && s[|s| - 1] in cs then TrimRight(s[..|s| - 1], cs) else s
  }

  /** ltrim keeps a suffix, strips only characters of cs, and stops at a
      character outside cs. */
  lemma {:induction false} TrimLeftShape(s: string, cs: set<char>)
    ensures |TrimLeft(s, cs)| <= |s| && TrimLeft(s, cs) == s[|s| - |TrimLeft(s, cs)|..]
    ensures forall k :: 0 <= k < |s| - |TrimLeft(s, cs)| ==> s[k] in cs
    ensures TrimLeft(s, cs) == [] || TrimLeft(s, cs)[0] !in cs
    decreases |s|
  {
    if |s| > 0 && s[0] in cs {
      TrimLeftShape(s[1..], cs);
      forall k | 1 <= k < |s| - |TrimLeft(s, cs)| ensures s[k] in cs {
        assert s[1..][k - 1] == s[k];
      }
    }
  }

  /** rtrim keeps a prefix, strips only characters of cs, and stops at a
      character outside cs. */
  lemma {:induction false} TrimRightShape(s: string, cs: set<char>)
    ensures |TrimRight(s, cs)| <= |s| && TrimRight(s, cs) == s[..|TrimRight(s, cs)|]
    ensures forall k :: |TrimRight(s, cs)| <= k < |s| ==> s[k] in cs
    ensures TrimRight(s, cs) == [] || TrimRight(s, cs)[|TrimRight(s, cs)| - 1] !in cs
    decreases |s|
  {
    if |s| > 0 && s[|s| - 1] in cs {
      TrimRightShape(s[..|s| - 1], cs);
      forall k | |TrimRight(s, cs)| <= k < |s| - 1 ensures s[k] in cs {
        assert s[..|s| - 1][k] == s[k];
      }
    }
  }

  /** trim($s, $chars). */
  function Trim(s: string, cs: set<char>): string
  {
    TrimRight(TrimLeft(s, cs), cs)
  }

  /** Where trim's result starts in s. */
  function TrimStart(s: string, cs: set<char>): nat
  {
    if |TrimLeft(s, cs)| <= |s| then |s| - |TrimLeft(s, cs)| else 0
  }

  /** trim($s, $chars) is the middle part of s left after stripping every
      leading and every trailing character of cs. */
  lemma TrimShape(s: string, cs: set<char>)
    ensures TrimStart(s, cs) + |Trim(s, cs)| <= |s|
    ensures Trim(s, cs) == s[TrimStart(s, cs)..TrimStart(s, cs) + |Trim(s, cs)|]
    ensures forall k :: 0 <= k < TrimStart(s, cs) ==> s[k] in cs
    ensures forall k :: TrimStart(s, cs) + |Trim(s, cs)| <= k < |s| ==> s[k] in cs
    ensures Trim(s, cs) == [] || (Trim(s, cs)[0] !in cs && Trim(s, cs)[|Trim(s, cs)| - 1] !in cs)
  {
    var t := TrimLeft(s, cs);
    TrimLeftShape(s, cs);
    TrimRightShape(t, cs);
    var i := TrimStart(s, cs);
    var r := TrimRight(t, cs);
    assert r == s[i..][..|r|] == s[i..i + |r|];
    forall k | i + |r| <= k < |s| ensures s[k] in cs {
      assert t[k - i] == s[k];
    }
    if r != [] {
      assert r[0] == t[0];
    }
  }

  /** trim($s) with PHP's default character list. */
  function PhpTrim(s: string): string
  {
    Trim(s, PhpWhitespace)
  }

  /** Trimming a string that neither starts nor ends with a character of cs
      gives it back unchanged. */
  lemma TrimUnchanged(s: string, cs: set<char>)
    requires s == [] || (s[0] !in cs && s[|s| - 1] !in cs)
    ensures Trim(s, cs) == s
  {
  }

  /** implode($sep, $parts). */
  function Join(parts: seq<string>, sep: string): string
    decreases |parts|
  {
    if |parts| == 0 then []
    else if |parts| == 1 then parts[0]
    else parts[0] + sep + Join(parts[1..], sep)
  }

  /** Joining one more part at the end puts one separator before it. */
  lemma {:induction false} JoinSnoc(parts: seq<string>, p: string, sep: string)
    requires |parts| >= 1
    ensures Join(parts + [p], sep) == Join(parts, sep) + sep + p
    decreases |parts|
  {
    if |parts| == 1 {
      assert (parts + [p])[1..] == [p];
    } else {
      assert (parts + [p])[1..] == parts[1..] + [p];
      JoinSnoc(parts[1..], p, sep);
    }
  }

  /** explode($sep, $s) for a one-character separator: the pieces between
      separators, always at least one, none containing the separator. */
  function Split(s: string, sep: char): (parts: seq<string>)
    ensures |parts| >= 1
    ensures forall i :: 0 <= i < |parts| ==> sep !in parts[i]
    decreases |s|
  {
    if s == [] then [[]]
    else
      var rest := Split(s[1..], sep);
      if s[0] == sep then [[]] + rest
      else [[s[0]] + rest[0]] + rest[1..]
  }

  lemma SplitCons(c: char, t: string, sep: char)
    ensures Split([c] + t, sep) ==
      if c == sep then [[]] + Split(t, sep)
      else [[c] + Split(t, sep)[0]] + Split(t, sep)[1..]
  {
    assert ([c] + t)[1..] == t;
  }

  /** explode then implode on the same separator gives the string back. */
  lemma {:induction false} JoinSplit(s: string, sep: char)
    ensures Join(Split(s, sep), [sep]) == s
    decreases |s|
  {
    if s != [] {
      JoinSplit(s[1..], sep);
      var rest := Split(s[1..], sep);
      assert s == [s[0]] + s[1..];
      SplitCons(s[0], s[1..], sep);
      if s[0] == sep {
        assert ([[]] + rest)[1..] == rest;
      } else if |rest| > 1 {
        var parts := [[s[0]] + rest[0]] + rest[1..];
        assert parts[1..] == rest[1..];
        assert Join(rest, [sep]) == rest[0] + [sep] + Join(rest[1..], [sep]);
        assert Join(parts, [sep]) == [s[0]] + rest[0] + [sep] + Join(rest[1..], [sep]);
      }
    }
  }

  lemma {:induction false} SplitSepFree(p: string, sep: char)
    requires sep !in p
    ensures Split(p, sep) == [p]
    decreases |p|
  {
    if p != [] {
      assert p == [p[0]] + p[1..];
      SplitCons(p[0], p[1..], sep);
      SplitSepFree(p[1..], sep);
    }
  }

  lemma {:induction false} SplitAfterSepFree(p: string, sep: char, t: string)
    requires sep !in p
    ensures Split(p + [sep] + t, sep) == [p] + Split(t, sep)
    decreases |p|
  {
    if p == [] {
      assert p + [sep] + t == [sep] + t;
      SplitCons(sep, t, sep);
    } else {
      var s := p + [sep] + t;
      assert s == [p[0]] + (p[1..] + [sep] + t);
      SplitCons(p[0], p[1..] + [sep] + t, sep);
      SplitAfterSepFree(p[1..], sep, t);
      assert [p[0]] + p[1..] == p;
    }
  }

  /** implode then explode gives the parts back when no part contains the
      separator. */
  lemma {:induction false} SplitJoin(parts: seq<string>, sep: char)
    requires |parts| >= 1
    requires forall i :: 0 <= i < |parts| ==> sep !in parts[i]
    ensures Split(Join(parts, [sep]), sep) == parts
    decreases |parts|
  {
    if |parts| == 1 {
      SplitSepFree(parts[0], sep);
    } else {
      SplitJoin(parts[1..], sep);
      SplitAfterSepFree(parts[0], sep, Join(parts[1..], [sep]));
      assert [parts[0]] + parts[1..] == parts;
    }
  }

  /** str_replace(', ', ',', $s): one left-to-right pass in which each
      ", " found becomes "," and the scan goes on after it. */
  function ReplaceCommaSpace(s: string): (r: string)
    ensures |r| <= |s|
    ensures |s| > 0 ==> |r| > 0 && r[0] == s[0]
    decreases |s|
  {
    if |s| == 0 then []
    else if |s| >= 2 && s[0] == ',' && s[1] == ' ' then [','] + ReplaceCommaSpace(s[2..])
    else [s[0]] + ReplaceCommaSpace(s[1..])
  }

  /** No comma in s is followed by a space. */
  predicate NoCommaSpace(s: string)
  {
    forall i :: 0 <= i < |s| - 1 ==> !(s[i] == ',' && s[i + 1] == ' ')
  }

  /** No comma in s is followed by two spaces. */
  predicate NoCommaTwoSpaces(s: string)
  {
    forall i :: 0 <= i < |s| - 2 ==> !(s[i] == ',' && s[i + 1] == ' ' && s[i + 2] == ' ')
  }

  /** The pass removes every ", " unless a comma is followed by two
      spaces: it never rescans what it produced. */
  lemma {:induction false} ReplaceCommaSpaceOnePass(s: string)
    requires NoCommaTwoSpaces(s)
    ensures NoCommaSpace(ReplaceCommaSpace(s))
    decreases |s|
  {
    if |s| > 0 {
      var k := if |s| >= 2 && s[0] == ',' && s[1] == ' ' then 2 else 1;
      var t := s[k..];
      forall i | 0 <= i < |t| - 2 ensures !(t[i] == ',' && t[i + 1] == ' ' && t[i + 2] == ' ') {
        assert t[i] == s[i + k] && t[i + 1] == s[i + k + 1] && t[i + 2] == s[i + k + 2];
      }
      ReplaceCommaSpaceOnePass(t);
      var rt := ReplaceCommaSpace(t);
      var r := ReplaceCommaSpace(s);
      assert r == [s[0]] + rt;
      forall i | 0 <= i < |r| - 1 ensures !(r[i] == ',' && r[i + 1] == ' ') {
        if i > 0 {
          assert r[i] == rt[i - 1] && r[i + 1] == rt[i];
        } else if s[0] == ',' {
          assert r[1] == rt[0] == t[0];
          if k == 2 {
            assert t[0] == s[2] != ' ';
          } else {
            assert t[0] == s[1] != ' ';
          }
        }
      }
    }
  }

  /** A name without the one space that may follow its comma. */
  function DropLeadingSpace(p: string): string
  {
    if |p| > 0 && p[0] == ' ' then p[1..] else p
  }

  /** The names b exploded from the replaced string against the names a
      exploded from the original. */
  ghost predicate SplitsAgree(a: seq<string>, b: seq<string>)
  {
    |a| >= 1 && |b| == |a| && b[0] == a[0]
    && forall i :: 1 <= i < |a| ==> b[i] == DropLeadingSpace(a[i])
  }

  lemma AgreeAfterCommaSpace(a: seq<string>, b: seq<string>)
    requires SplitsAgree(a, b)
    ensures SplitsAgree([[]] + ([[' '] + a[0]] + a[1..]), [[]] + b)
  {
    var a2, b2 := [[]] + ([[' '] + a[0]] + a[1..]), [[]] + b;
    forall i | 1 <= i < |a2| ensures b2[i] == DropLeadingSpace(a2[i]) {
      if i == 1 {
        assert a2[1] == [' '] + a[0] && b2[1] == b[0];
        assert DropLeadingSpace(a2[1]) == a[0];
      } else {
        assert a2[i] == a[i - 1] && b2[i] == b[i - 1];
      }
    }
  }

  lemma AgreeAfterLoneComma(a: seq<string>, b: seq<string>)
    requires SplitsAgree(a, b)
    requires a[0] == [] || a[0][0] != ' '
    ensures SplitsAgree([[]] + a, [[]] + b)
  {
    var a2, b2 := [[]] + a, [[]] + b;
    forall i | 1 <= i < |a2| ensures b2[i] == DropLeadingSpace(a2[i]) {
      assert a2[i] == a[i - 1] && b2[i] == b[i - 1];
    }
  }

  lemma AgreeAfterOther(c: char, a: seq<string>, b: seq<string>)
    requires SplitsAgree(a, b)
    ensures SplitsAgree([[c] + a[0]] + a[1..], [[c] + b[0]] + b[1..])
  {
  }

  lemma SplitAfterReplaceCommaSpace(t: string)
    requires SplitsAgree(Split(t, ','), Split(ReplaceCommaSpace(t), ','))
    ensures var s := [','] + ([' '] + t);
            SplitsAgree(Split(s, ','), Split(ReplaceCommaSpace(s), ','))
  {
    var s := [','] + ([' '] + t);
    assert s[2..] == t;
    assert ReplaceCommaSpace(s) == [','] + ReplaceCommaSpace(t);
    SplitCons(',', ReplaceCommaSpace(t), ',');
    SplitCons(',', [' '] + t, ',');
    SplitCons(' ', t, ',');
    AgreeAfterCommaSpace(Split(t, ','), Split(ReplaceCommaSpace(t), ','));
  }

  lemma SplitAfterReplaceLoneComma(t: string)
    requires t == [] || t[0] != ' '
    requires SplitsAgree(Split(t, ','), Split(ReplaceCommaSpace(t), ','))
    ensures var s := [','] + t;
            SplitsAgree(Split(s, ','), Split(ReplaceCommaSpace(s), ','))
  {
    var s := [','] + t;
    var r := ReplaceCommaSpace(t);
    assert s[1..] == t;
    assert ReplaceCommaSpace(s) == [','] + r;
    SplitCons(',', t, ',');
    SplitCons(',', r, ',');
    assert Split(s, ',') == [[]] + Split(t, ',');
    assert Split(ReplaceCommaSpace(s), ',') == [[]] + Split(r, ',');
    SplitHeadNoSpace(t);
    AgreeAfterLoneComma(Split(t, ','), Split(r, ','));
  }

  /** The first name exploded from a string that does not start with a
      space does not start with one either. */
  lemma SplitHeadNoSpace(t: string)
    requires t == [] || t[0] != ' '
    ensures Split(t, ',')[0] == [] || Split(t, ',')[0][0] != ' '
  {
    if t != [] {
      assert t == [t[0]] + t[1..];
      SplitCons(t[0], t[1..], ',');
    }
  }

  lemma SplitAfterReplaceOther(c: char, t: string)
    requires c != ','
    requires SplitsAgree(Split(t, ','), Split(ReplaceCommaSpace(t), ','))
    ensures var s := [c] + t;
            SplitsAgree(Split(s, ','), Split(ReplaceCommaSpace(s), ','))
  {
    var s := [c] + t;
    assert s[1..] == t;
    SplitCons(c, t, ',');
    SplitCons(c, ReplaceCommaSpace(t), ',');
    AgreeAfterOther(c, Split(t, ','), Split(ReplaceCommaSpace(t), ','));
  }

  /** After str_replace(', ', ','), exploding on ',' gives as many names as
      before: the first unchanged, every later one without the single space
      that followed its comma. */
  lemma {:induction false} SplitAfterReplace(s: string)
    ensures var a, b := Split(s, ','), Split(ReplaceCommaSpace(s), ',');
            |b| == |a| && b[0] == a[0]
            && forall i :: 1 <= i < |a| ==> b[i] == DropLeadingSpace(a[i])
    decreases |s|
  {
    if |s| == 0 {
    } else if |s| >= 2 && s[0] == ',' && s[1] == ' ' {
      SplitAfterReplace(s[2..]);
      assert s == [','] + ([' '] + s[2..]);
      SplitAfterReplaceCommaSpace(s[2..]);
    } else if s[0] == ',' {
      SplitAfterReplace(s[1..]);
      assert s == [','] + s[1..];
      SplitAfterReplaceLoneComma(s[1..]);
    } else {
      SplitAfterReplace(s[1..]);
      assert s == [s[0]] + s[1..];
      SplitAfterReplaceOther(s[0], s[1..]);
    }
  }
}
