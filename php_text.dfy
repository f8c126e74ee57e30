/**
 * The PHP string primitives the search clause relies on: `trim`, `empty`, `is_numeric`,
 * `explode(' ', ...)` and the containment that an SQL `LIKE '%needle%'` pattern tests.
 * Strings are sequences of characters; case folding and collation are not modelled.
 */
module PhpText {

  /** The characters PHP's `trim` strips by default: " \t\n\r\0\x0B". */
  predicate IsTrimmed(c: char) {
    c == ' ' || c == '\t' || c == '\n' || c == '\r' || c == '\0' || c as int == 11
  }

  /** Every character of `s` is one `trim` strips. */
  predicate AllTrimmed(s: string) {
    forall i :: 0 <= i < |s| ==> IsTrimmed(s[i])
  }

  /** `ltrim`: drops the leading run of trim characters, and nothing else. */
  function TrimLeft(s: string): (r: string)
    ensures |r| <= |s| && r == s[|s| - |r|..]
    ensures r == [] || !IsTrimmed(r[0])
  {
    if |s| > 0 && IsTrimmed(s[0]) then TrimLeft(s[1..]) else s
  }

  /** `rtrim`: drops the trailing run of trim characters, and nothing else. */
  function TrimRight(s: string): (r: string)
    ensures |r| <= |s| && r == s[..|r|]
    ensures r == [] || !IsTrimmed(r[|r| - 1])
  {
    if |s| > 0 && IsTrimmed(s[|s| - 1]) then TrimRight(s[..|s| - 1]) else s
  }

  /** PHP `trim($s)`. */
  function Trim(s: string): (r: string)
  {
    TrimRight(TrimLeft(s))
  }

  /** The result of `trim` is a contiguous piece of its input with nothing left to strip at either end. */
  lemma TrimShape(s: string)
    ensures OccursAt(s, Trim(s), |s| - |TrimLeft(s)|)
    ensures Trim(s) == [] || (!IsTrimmed(Trim(s)[0]) && !IsTrimmed(Trim(s)[|Trim(s)| - 1]))
  {
    var l := TrimLeft(s);
    var k := |s| - |l|;
    var t := TrimRight(l);
    assert Trim(s) == t;
    assert l == s[k..] && t == l[..|t|];
    PrefixOfSuffix(s, k, |t|);
    assert OccursAt(s, t, k);
  }

  /** A prefix of a suffix is a slice. */
  lemma PrefixOfSuffix(s: string, k: nat, n: nat)
    requires k + n <= |s|
    ensures s[k..][..n] == s[k..k + n]
  {
  }

  /** TrimLeft cuts only trim characters. */
  lemma {:induction false} TrimLeftCuts(s: string)
    ensures AllTrimmed(s[..|s| - |TrimLeft(s)|])
  {
    if |s| > 0 && IsTrimmed(s[0]) {
      var t := s[1..];
      var r := TrimLeft(t);
      TrimLeftCuts(t);
      assert TrimLeft(s) == r;
      var cut := s[..|s| - |r|];
      forall i | 0 <= i < |cut| ensures IsTrimmed(cut[i]) {
        if i > 0 {
          assert cut[i] == t[..|t| - |r|][i - 1];
        }
      }
    } else {
      assert s[..|s| - |TrimLeft(s)|] == [];
    }
  }

  /** TrimRight cuts only trim characters. */
  lemma {:induction false} TrimRightCuts(s: string)
    ensures AllTrimmed(s[|TrimRight(s)|..])
  {
    if |s| > 0 && IsTrimmed(s[|s| - 1]) {
      var r := TrimRight(s[..|s| - 1]);
      TrimRightCuts(s[..|s| - 1]);
      assert s[|r|..] == s[..|s| - 1][|r|..] + [s[|s| - 1]];
    }
  }

  /** `trim` cuts only trim characters: everything before and after the piece TrimShape locates. */
  lemma TrimCutsOnlyTrimCharacters(s: string)
    ensures AllTrimmed(s[..|s| - |TrimLeft(s)|])
    ensures AllTrimmed(s[|s| - |TrimLeft(s)| + |Trim(s)|..])
  {
    var l := TrimLeft(s);
    var k := |s| - |l|;
    var t := TrimRight(l);
    TrimLeftCuts(s);
    TrimRightCuts(l);
    assert s[k + |t|..] == l[|t|..];
  }

  /** Trimming twice is trimming once: the service trims the search term, and the search clause trims it again. */
  lemma TrimIdempotent(s: string)
    ensures Trim(Trim(s)) == Trim(s)
  {
    var l := TrimLeft(s);
    var r := TrimRight(l);
    if r != [] {
      assert r[0] == l[0];
    }
    TrimLeftKeeps(r);
    TrimRightKeeps(r);
  }

  lemma TrimLeftKeeps(s: string)
    requires s == [] || !IsTrimmed(s[0])
    ensures TrimLeft(s) == s
  {
  }

  lemma TrimRightKeeps(s: string)
    requires s == [] || !IsTrimmed(s[|s| - 1])
    ensures TrimRight(s) == s
  {
  }

  /** PHP `empty($s)` on a string: true for "" and for "0". */
  predicate IsEmpty(s: string) {
    s == "" || s == "0"
  }

  /** `is_numeric($s)`, approximated as a non-empty run of decimal digits. */
  predicate IsNumeric(s: string) {
    |s| > 0 && forall i :: 0 <= i < |s| ==> '0' <= s[i] <= '9'
  }

  /** `LIKE '%needle%'`: the needle occurs somewhere in s. */
  predicate Contains(s: string, needle: string)
    decreases |s|
  {
    needle <= s || (|s| > 0 && Contains(s[1..], needle))
  }

  /** `needle` occurs in s starting at index k. */
  predicate OccursAt(s: string, needle: string, k: int) {
    0 <= k && k + |needle| <= |s| && s[k..k + |needle|] == needle
  }

  /** An occurrence in the tail is an occurrence one place further in the whole text. */
  lemma OccursShift(s: string, needle: string, k: nat)
    requires |s| > 0
    ensures OccursAt(s, needle, k + 1) <==> OccursAt(s[1..], needle, k)
  {
    if k + 1 + |needle| <= |s| {
      assert s[1..][k..k + |needle|] == s[k + 1..k + 1 + |needle|];
    }
  }

  /** Containment by position, both directions: the recursive definition finds exactly the occurrences. */
  lemma {:induction false} ContainsAt(s: string, needle: string)
    ensures Contains(s, needle) <==> exists k :: OccursAt(s, needle, k)
    decreases |s|
  {
    if needle <= s {
      assert OccursAt(s, needle, 0);
    } else if |s| > 0 {
      ContainsAt(s[1..], needle);
      if Contains(s, needle) {
        var k :| OccursAt(s[1..], needle, k);
        OccursShift(s, needle, k);
      }
      if exists k :: OccursAt(s, needle, k) {
        var k :| OccursAt(s, needle, k);
        assert k != 0;
        OccursShift(s, needle, k - 1);
      }
    }
  }

  /** A text containing `prefix + t` contains t: a `LIKE '%1t%'` clause never matches more than `LIKE '%t%'`. */
  lemma {:induction false} ContainsDropPrefix(s: string, prefix: string, t: string)
    requires Contains(s, prefix + t)
    ensures Contains(s, t)
    decreases |s|
  {
    if prefix + t <= s {
      assert OccursAt(s, t, |prefix|);
      ContainsAt(s, t);
    } else {
      ContainsDropPrefix(s[1..], prefix, t);
    }
  }

  /** PHP `explode(' ', $s)`: the pieces between single spaces, empty pieces included. */
  function Explode(s: string): (pieces: seq<string>)
    ensures |pieces| > 0
    ensures forall i :: 0 <= i < |pieces| ==> ' ' !in pieces[i]
  {
    if s == [] then [""]
    else
      var rest := Explode(s[1..]);
      if s[0] == ' ' then [""] + rest
      else [[s[0]] + rest[0]] + rest[1..]
  }

  /** Text without a space explodes into itself alone. */
  lemma {:induction false} ExplodeWithoutSpace(s: string)
    requires ' ' !in s
    ensures Explode(s) == [s]
  {
    if s != [] {
      assert ' ' !in s[1..] by {
        forall i | 0 <= i < |s[1..]| ensures s[1..][i] != ' ' {
          assert s[1..][i] == s[i + 1];
        }
      }
      ExplodeWithoutSpace(s[1..]);
      assert [s[0]] + s[1..] == s;
    }
  }

  /** PHP `implode(' ', $pieces)`. */
  function Implode(pieces: seq<string>): string
    requires |pieces| > 0
  {
    if |pieces| == 1 then pieces[0] else pieces[0] + " " + Implode(pieces[1..])
  }

  /** Splitting on spaces loses nothing: joining the pieces back gives the original text. */
  lemma {:induction false} ImplodeExplode(s: string)
    ensures Implode(Explode(s)) == s
  {
    if s != [] {
      var rest := Explode(s[1..]);
      ImplodeExplode(s[1..]);
      if s[0] == ' ' {
        assert ([""] + rest)[1..] == rest;
      } else {
        var p := [[s[0]] + rest[0]] + rest[1..];
        if |rest| == 1 {
          assert p == [[s[0]] + rest[0]];
        } else {
          assert p[1..] == rest[1..];
          assert Implode(rest) == rest[0] + " " + Implode(rest[1..]);
        }
      }
    }
  }
}
