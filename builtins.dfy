/**
 * The few pieces of the Python runtime that the binding core relies on,
 * written out so that the models of the two source files can share them:
 * optional values and raised exceptions, the values a topic cell holds,
 * `str.replace("/", "_")`, `str.isidentifier()`, `float()` on text,
 * `str()` of an integer, the ordering of `str`, and the insertion-ordered
 * `dict` that both registries are.
 */
module Builtins {

  datatype Option<+T> = None | Some(value: T)

  /** The exceptions the core raises (or lets through) on its error paths. */
  datatype Exception =
    | AssertionError   // a failed `assert` in the source
    | TypeError        // an operation applied to a value of the wrong kind
    | KeyError         // a missing key in an object's `__dict__`
    | AttributeError   // a missing attribute, or an attribute set on a str/int
    | UserWarning      // raised explicitly by the decorator's argument check

  /** The outcome of a Python call: a returned value or a raised exception. */
  datatype Result<+T> = Ok(value: T) | Raise(exc: Exception)

  /**
   * A value stored in a topic cell: text (what the dispatcher stores and
   * what most assignments carry) or an integer an application assigns.
   */
  datatype Value = Text(s: string) | Int(i: int)

  // ---------------------------------------------------------------------
  // str.replace("/", "_")
  // ---------------------------------------------------------------------

  /** `s.replace("/", "_")`: every slash becomes an underscore, nothing else moves. */
  function ReplaceSlash(s: string): (r: string)
    ensures |r| == |s|
    ensures forall i | 0 <= i < |s| :: r[i] == (if s[i] == '/' then '_' else s[i])
  {
    if s == [] then []
    else [if s[0] == '/' then '_' else s[0]] + ReplaceSlash(s[1..])
  }

  /** The replacement leaves no slash behind, so doing it twice changes nothing. */
  lemma ReplaceSlashIdempotent(s: string)
    ensures '/' !in ReplaceSlash(s)
    ensures ReplaceSlash(ReplaceSlash(s)) == ReplaceSlash(s)
  {
    var r := ReplaceSlash(s);
    assert forall i | 0 <= i < |r| :: r[i] != '/';
  }

  /** A text without slashes is its own field name. */
  lemma ReplaceSlashFixesSlashFree(s: string)
    requires '/' !in s
    ensures ReplaceSlash(s) == s
  {
    var r := ReplaceSlash(s);
    forall i | 0 <= i < |s| ensures r[i] == s[i] {
      assert s[i] in s;
    }
  }

  /** The replacement works character by character, so it distributes over concatenation. */
  lemma ReplaceSlashConcat(a: string, b: string)
    ensures ReplaceSlash(a + b) == ReplaceSlash(a) + ReplaceSlash(b)
  {
    var l, r := ReplaceSlash(a + b), ReplaceSlash(a) + ReplaceSlash(b);
    forall i | 0 <= i < |a + b| ensures l[i] == r[i] {
      if i >= |a| { assert (a + b)[i] == b[i - |a|]; }
    }
  }

  /** A two-level topic `a/b` becomes `a_b` when neither level holds a slash. */
  lemma ReplaceSlashJoin(a: string, b: string)
    requires '/' !in a && '/' !in b
    ensures ReplaceSlash(a + "/" + b) == a + "_" + b
  {
    ReplaceSlashConcat(a + "/", b);
    ReplaceSlashConcat(a, "/");
    ReplaceSlashFixesSlashFree(a);
    ReplaceSlashFixesSlashFree(b);
  }

  /** The topic of the decorator's own example and the field it is stored under. */
  lemma ReplaceSlashExample()
    ensures ReplaceSlash("AIR_COND/SOUTH") == "AIR_COND_SOUTH"
  {
    assert '/' !in "AIR_COND" && '/' !in "SOUTH";
    ReplaceSlashJoin("AIR_COND", "SOUTH");
    assert "AIR_COND" + "/" + "SOUTH" == "AIR_COND/SOUTH";
    assert "AIR_COND" + "_" + "SOUTH" == "AIR_COND_SOUTH";
  }

  // ---------------------------------------------------------------------
  // str.isidentifier(), restricted to ASCII
  // ---------------------------------------------------------------------

  predicate IsLetter(c: char) {
    ('a' <= c <= 'z') || ('A' <= c <= 'Z')
  }

  predicate IsDigit(c: char) {
    '0' <= c <= '9'
  }

  /** `s.isidentifier()` over ASCII: a letter or underscore, then letters, digits and underscores. */
  predicate IsIdentifier(s: string) {
    && |s| > 0
    && (IsLetter(s[0]) || s[0] == '_')
    && forall i | 1 <= i < |s| :: IsLetter(s[i]) || IsDigit(s[i]) || s[i] == '_'
  }

  // ---------------------------------------------------------------------
  // float() on text: a decimal numeral with optional sign and point
  // ---------------------------------------------------------------------

  predicate AllDigits(s: string) {
    forall i | 0 <= i < |s| :: IsDigit(s[i])
  }

  function DigitValue(c: char): nat
    requires IsDigit(c)
  {
    (c as int) - ('0' as int)
  }

  /** The natural number a string of decimal digits denotes (0 for the empty string). */
  function DigitsValue(s: string): nat
    requires AllDigits(s)
  {
    if s == [] then 0 else DigitsValue(s[..|s| - 1]) * 10 + DigitValue(s[|s| - 1])
  }

  function Pow10(n: nat): (r: nat)
    ensures r >= 1
  {
    if n == 0 then 1 else 10 * Pow10(n - 1)
  }

  /** Index of the first `c` in `s`, if any. */
  function IndexOf(s: string, c: char): (r: Option<nat>)
    ensures r.None? ==> c !in s
    ensures r.Some? ==> r.value < |s| && s[r.value] == c && c !in s[..r.value]
  {
    if s == [] then None
    else if s[0] == c then Some(0)
    else match IndexOf(s[1..], c)
      case None => None
      case Some(k) => assert s[1..][..k] == s[1..k + 1]; Some(k + 1)
  }

  /** An unsigned decimal numeral: digits, optionally one point, at least one digit. */
  function ParseUnsigned(s: string): (r: Option<real>)
    ensures r.Some? ==> r.value >= 0.0
  {
    match IndexOf(s, '.')
    case None =>
      if |s| > 0 && AllDigits(s) then Some(DigitsValue(s) as real) else None
    case Some(k) =>
      var whole, frac := s[..k], s[k + 1..];
      if AllDigits(whole) && AllDigits(frac) && |whole| + |frac| > 0 then
        var q := (DigitsValue(frac) as real) / (Pow10(|frac|) as real);
        assert q >= 0.0;
        Some(DigitsValue(whole) as real + q)
      else None
  }

  /**
   * `float(s)` for text, on the decimal subset this model covers: an
   * optional sign followed by an unsigned decimal numeral. The number is
   * exact (a `real`), not rounded to binary64. A leading `-` gives a
   * number at most 0, any other accepted text one at least 0.
   */
  function ParseFloat(s: string): (r: Option<real>)
    ensures r.Some? ==> |s| > 0
    ensures r.Some? && s[0] == '-' ==> r.value <= 0.0
    ensures r.Some? && s[0] != '-' ==> r.value >= 0.0
  {
    if |s| > 0 && (s[0] == '+' || s[0] == '-') then
      match ParseUnsigned(s[1..])
      case None => None
      case Some(x) => Some(if s[0] == '-' then -x else x)
    else ParseUnsigned(s)
  }

  predicate IsNumeralChar(c: char) {
    IsDigit(c) || c == '.' || c == '+' || c == '-'
  }

  lemma UnsignedIsNumeral(s: string)
    requires ParseUnsigned(s).Some?
    ensures forall i | 0 <= i < |s| :: IsDigit(s[i]) || s[i] == '.'
  {
    match IndexOf(s, '.')
    case None =>
    case Some(k) =>
      forall i | 0 <= i < |s| ensures IsDigit(s[i]) || s[i] == '.' {
        if i < k {
          assert s[i] == s[..k][i];
        } else if i > k {
          assert s[i] == s[k + 1..][i - k - 1];
        }
      }
  }

  /** Only signs, digits and the point can occur in a text the modelled decimal subset of `float()` accepts. */
  lemma ParsedTextIsNumeral(s: string)
    requires ParseFloat(s).Some?
    ensures forall i | 0 <= i < |s| :: IsNumeralChar(s[i])
  {
    if |s| > 0 && (s[0] == '+' || s[0] == '-') {
      UnsignedIsNumeral(s[1..]);
      forall i | 1 <= i < |s| ensures IsNumeralChar(s[i]) {
        assert s[i] == s[1..][i - 1];
      }
    } else {
      UnsignedIsNumeral(s);
    }
  }

  /** So a text holding any other character is rejected by the modelled decimal subset of `float()`. */
  lemma NonNumeralTextDoesNotParse(s: string, i: nat)
    requires i < |s| && !IsNumeralChar(s[i])
    ensures ParseFloat(s).None?
  {
    if ParseFloat(s).Some? {
      ParsedTextIsNumeral(s);
    }
  }

  // ---------------------------------------------------------------------
  // str() of an integer
  // ---------------------------------------------------------------------

  function DigitChar(d: nat): (c: char)
    requires d < 10
    ensures IsDigit(c) && DigitValue(c) == d
  {
    (('0' as int) + d) as char
  }

  /** The decimal numeral of a natural number, without leading zeros. */
  function NatText(n: nat): (r: string)
    ensures |r| > 0 && AllDigits(r)
    ensures DigitsValue(r) == n
  {
    if n < 10 then [DigitChar(n)]
    else
      var r := NatText(n / 10) + [DigitChar(n % 10)];
      assert r[..|r| - 1] == NatText(n / 10);
      r
  }

  /** `str(i)` for an int. */
  function IntText(i: int): string {
    if i < 0 then "-" + NatText(-i) else NatText(i)
  }

  /** `str(v)` for a cell value. */
  function ValueText(v: Value): string {
    match v
    case Text(s) => s
    case Int(i) => IntText(i)
  }

  /** `float(str(i)) == i`: the text of an integer parses back to that integer. */
  lemma {:induction false} IntTextParses(i: int)
    ensures ParseFloat(IntText(i)) == Some(i as real)
  {
    var n := if i < 0 then -i else i;
    var t := NatText(n);
    assert forall k | 0 <= k < |t| :: t[k] != '.';
    assert '.' !in t;
    assert ParseUnsigned(t) == Some(n as real);
    if i < 0 {
      assert IntText(i)[1..] == t;
    } else {
      assert IsDigit(t[0]);
    }
  }

  // ---------------------------------------------------------------------
  // The ordering of str
  // ---------------------------------------------------------------------

  /** `a < b` on Python strings: lexicographic by code point, a proper prefix first. */
  predicate LexLess(a: string, b: string) {
    if a == [] then b != []
    else if b == [] then false
    else if a[0] != b[0] then a[0] < b[0]
    else LexLess(a[1..], b[1..])
  }

  /** The order on strings is strict and total: exactly one of `<`, `==`, `>` holds. */
  lemma {:induction false} LexTrichotomy(a: string, b: string)
    ensures LexLess(a, b) || a == b || LexLess(b, a)
    ensures !(LexLess(a, b) && LexLess(b, a))
    ensures !(LexLess(a, b) && a == b)
  {
    if a != [] && b != [] && a[0] == b[0] {
      LexTrichotomy(a[1..], b[1..]);
      if a[1..] == b[1..] {
        assert a == [a[0]] + a[1..] && b == [b[0]] + b[1..];
      }
    }
  }

  lemma {:induction false} LexTransitive(a: string, b: string, c: string)
    requires LexLess(a, b) && LexLess(b, c)
    ensures LexLess(a, c)
  {
    if a != [] && b != [] && c != [] && a[0] == b[0] && b[0] == c[0] {
      LexTransitive(a[1..], b[1..], c[1..]);
    }
  }
}

/**
 * Python's `dict` as the registries use it: insertion-ordered, keyed by
 * object identity, held here as a list of (key, value) pairs.
 */
module Dict {
  import opened Builtins

  /** The keys of a table held as a list of (key, value) pairs. */
  function Keys<K, V>(e: seq<(K, V)>): (r: set<K>)
    ensures forall i | 0 <= i < |e| :: e[i].0 in r
    ensures forall x | x in r :: exists i | 0 <= i < |e| :: e[i].0 == x
  {
    if e == [] then {}
    else
      var r := {e[0].0} + Keys(e[1..]);
      assert forall i | 1 <= i < |e| :: e[i] == e[1..][i - 1];
      r
  }

  /** No key occurs twice, as in a dict. */
  predicate DistinctKeys<K(==), V>(e: seq<(K, V)>) {
    forall i, j | 0 <= i < j < |e| :: e[i].0 != e[j].0
  }

  /** `d.get(k)`. */
  function Lookup<K(==), V>(e: seq<(K, V)>, k: K): (r: Option<V>)
    ensures r.None? <==> k !in Keys(e)
  {
    if e == [] then None
    else if e[0].0 == k then Some(e[0].1)
    else
      Lookup(e[1..], k)
  }

  /** The position of key `k`, if present. */
  function IndexOfKey<K(==), V>(e: seq<(K, V)>, k: K): (r: Option<nat>)
    ensures r.None? <==> k !in Keys(e)
    ensures r.Some? ==> r.value < |e| && e[r.value].0 == k
  {
    if e == [] then None
    else if e[0].0 == k then Some(0)
    else
      match IndexOfKey(e[1..], k)
      case None => None
      case Some(i) => Some(i + 1)
  }

  /**
   * `d[k] = v`: a present key keeps its position and takes the new value,
   * an absent key is appended at the end.
   */
  function Assign<K(==), V>(e: seq<(K, V)>, k: K, v: V): (r: seq<(K, V)>)
    ensures Keys(r) == Keys(e) + {k}
    ensures k in Keys(e) ==> |r| == |e|
    ensures k !in Keys(e) ==> r == e + [(k, v)]
    ensures forall i | 0 <= i < |e| :: r[i].0 == e[i].0
    ensures forall i | 0 <= i < |e| && e[i].0 != k :: r[i] == e[i]
  {
    match IndexOfKey(e, k)
    case None =>
      var r := e + [(k, v)];
      assert Keys(r) == Keys(e) + {k} by {
        assert r[|e|].0 == k;
        forall x | x in Keys(r) ensures x in Keys(e) + {k} {
          var i :| 0 <= i < |r| && r[i].0 == x;
          if i < |e| { assert e[i].0 == x; }
        }
        forall x | x in Keys(e) ensures x in Keys(r) {
          var i :| 0 <= i < |e| && e[i].0 == x;
          assert r[i].0 == x;
        }
      }
      r
    case Some(j) =>
      var r := e[j := (k, v)];
      assert Keys(r) == Keys(e) by {
        forall x | x in Keys(e) ensures x in Keys(r) {
          var i :| 0 <= i < |e| && e[i].0 == x;
          assert r[i].0 == x;
        }
      }
      r
  }

  /** In a dict, looking up the key at position `i` finds the value at position `i`. */
  lemma {:induction false} LookupAt<K, V>(e: seq<(K, V)>, i: nat)
    requires DistinctKeys(e) && i < |e|
    ensures Lookup(e, e[i].0) == Some(e[i].1)
  {
    if i > 0 {
      assert e[0].0 != e[i].0;
      assert e[1..][i - 1] == e[i];
      LookupAt(e[1..], i - 1);
    }
  }

  /** After `d[k] = v` the dict still has distinct keys, `k` maps to `v`, and every other key is as before. */
  lemma AssignLookup<K, V>(e: seq<(K, V)>, k: K, v: V, k': K)
    requires DistinctKeys(e)
    ensures DistinctKeys(Assign(e, k, v))
    ensures Lookup(Assign(e, k, v), k') == if k' == k then Some(v) else Lookup(e, k')
  {
    var r := Assign(e, k, v);
    forall a, b | 0 <= a < b < |r| ensures r[a].0 != r[b].0 {
      if b == |e| {
        assert e[a].0 in Keys(e);
      }
    }
    if k' in Keys(r) {
      var i :| 0 <= i < |r| && r[i].0 == k';
      LookupAt(r, i);
      if i < |e| {
        assert e[i].0 == k';
        if k' != k {
          LookupAt(e, i);
        } else {
          var j := IndexOfKey(e, k).value;
          assert i == j;
        }
      }
    }
  }
}
