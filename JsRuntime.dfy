/**
 * The parts of ECMAScript that the client relies on: values that option objects hold, own-property
 * lists in insertion order, `in`, property reads, object spread, `??`, truthiness, `String(v)` and
 * `String.prototype.replace` with a string pattern.
 */
module JsRuntime {
  import opened Wrappers
  import opened Sequences

  /**
   * The integers a JavaScript number holds exactly: `Number.MIN_SAFE_INTEGER` to
   * `Number.MAX_SAFE_INTEGER`. Their magnitude stays below 10^21, so `String` prints their digits.
   */
  type SafeInteger = n: int | -0x1F_FFFF_FFFF_FFFF <= n <= 0x1F_FFFF_FFFF_FFFF

  /** A value an options object can hold. Numbers are safe integers; functions and nested objects are left out. */
  datatype JsValue = Undefined | Null | Bool(b: bool) | Num(n: SafeInteger) | Str(s: string) | Arr(elems: seq<string>)

  /** An object's own enumerable properties in the order `Object.entries` lists them. */
  type Obj = seq<(string, JsValue)>

  function Keys(o: Obj): (ks: seq<string>)
    ensures |ks| == |o|
    ensures forall i :: 0 <= i < |o| ==> ks[i] == o[i].0
  {
    if |o| == 0 then [] else [o[0].0] + Keys(o[1..])
  }

  /** `k in o`: the key exists, whatever its value (even `undefined`). */
  predicate Has(o: Obj, k: string)
  {
    k in Keys(o)
  }

  /** A real object never lists a key twice. */
  predicate IsObject(o: Obj)
  {
    forall i, j :: 0 <= i < j < |o| ==> o[i].0 != o[j].0
  }

  /** `o[k]`: the property's value, `undefined` when the key is absent. */
  function Get(o: Obj, k: string): (v: JsValue)
    ensures !Has(o, k) ==> v == Undefined
    ensures Has(o, k) ==> exists i :: 0 <= i < |o| && o[i] == (k, v)
  {
    if |o| == 0 then Undefined
    else if o[0].0 == k then o[0].1
    else
      var v := Get(o[1..], k);
      assert Has(o[1..], k) ==> exists i :: 0 <= i < |o[1..]| && o[1..][i] == (k, v);
      assert Has(o[1..], k) ==> exists i :: 0 <= i < |o| && o[i] == (k, v) by {
        if Has(o[1..], k) {
          var i :| 0 <= i < |o[1..]| && o[1..][i] == (k, v);
          assert o[i + 1] == (k, v);
        }
      }
      v
  }

  /** Every key after the object's own: `o + [(k, v)]` when `k` is new. */
  lemma {:induction false} GetAppend(o: Obj, k: string, v: JsValue, k': string)
    ensures Get(o + [(k, v)], k') == if Has(o, k') then Get(o, k') else if k' == k then v else Undefined
    ensures Has(o + [(k, v)], k') <==> Has(o, k') || k' == k
  {
    var o' := o + [(k, v)];
    assert Keys(o') == Keys(o) + [k];
    if |o| > 0 {
      assert o'[1..] == o[1..] + [(k, v)];
      GetAppend(o[1..], k, v, k');
      assert Keys(o) == [o[0].0] + Keys(o[1..]);
    }
  }

  /** Each property named `k` gets the value `v`, in place. */
  function Overwrite(o: Obj, k: string, v: JsValue): (r: Obj)
    ensures |r| == |o|
    ensures forall i :: 0 <= i < |o| ==> r[i] == if o[i].0 == k then (k, v) else o[i]
  {
    if |o| == 0 then [] else [if o[0].0 == k then (k, v) else o[0]] + Overwrite(o[1..], k, v)
  }

  lemma {:induction false} OverwriteGet(o: Obj, k: string, v: JsValue, k': string)
    ensures Keys(Overwrite(o, k, v)) == Keys(o)
    ensures Get(Overwrite(o, k, v), k') == if k' == k && Has(o, k) then v else Get(o, k')
  {
    if |o| > 0 {
      OverwriteGet(o[1..], k, v, k');
      assert Overwrite(o, k, v)[1..] == Overwrite(o[1..], k, v);
    }
  }

  /**
   * `{ ...o, [k]: v }`: an existing key keeps its place and takes the new value, a new key goes last.
   */
  function SetProp(o: Obj, k: string, v: JsValue): (r: Obj)
    ensures Has(r, k) && Get(r, k) == v
    ensures forall k' :: k' != k ==> Get(r, k') == Get(o, k') && (Has(r, k') <==> Has(o, k'))
    ensures Has(o, k) ==> |r| == |o| && forall i :: 0 <= i < |o| ==> r[i] == if o[i].0 == k then (k, v) else o[i]
    ensures !Has(o, k) ==> r == o + [(k, v)]
    ensures IsObject(o) ==> IsObject(r)
  {
    if Has(o, k) then
      var r := Overwrite(o, k, v);
      OverwriteGet(o, k, v, k);
      assert forall k' :: Get(r, k') == if k' == k then v else Get(o, k') by {
        forall k' { OverwriteGet(o, k, v, k'); }
      }
      r
    else
      var r := o + [(k, v)];
      assert forall k' :: (Get(r, k') == (if Has(o, k') then Get(o, k') else if k' == k then v else Undefined)
        && (Has(r, k') <==> Has(o, k') || k' == k)) by {
        forall k' { GetAppend(o, k, v, k'); }
      }
      assert IsObject(o) ==> IsObject(r) by {
        if IsObject(o) {
          forall i, j | 0 <= i < j < |r| ensures r[i].0 != r[j].0 {
            if j == |o| {
              assert Keys(o)[i] == o[i].0;
            }
          }
        }
      }
      r
  }

  /** `a ?? b`: `b` when `a` is `null` or `undefined`. */
  function Coalesce(a: JsValue, b: JsValue): JsValue
  {
    if a.Undefined? || a.Null? then b else a
  }

  /** The truth value an `if` or `?:` gives a value. */
  predicate Truthy(v: JsValue)
  {
    match v
    case Undefined => false
    case Null => false
    case Bool(b) => b
    case Num(n) => n != 0
    case Str(s) => s != ""
    case Arr(_) => true
  }

  /**
   * `String(v)`, also what a template literal `${v}` produces. A number prints as plain decimal
   * digits (no exponent, no fraction) that read back as the number; an array prints its elements
   * joined by `,`, so splitting at `,` gives them back when none holds a comma.
   */
  function ToString(v: JsValue): (r: string)
    ensures v.Num? && v.n >= 0 ==> IsDigits(r) && DecimalValue(r) == v.n && (r == "0" <==> v.n == 0)
    ensures v.Num? && v.n > 0 ==> r[0] != '0'
    ensures v.Num? && v.n < 0 ==> |r| > 1 && r[0] == '-' && r[1] != '0' && IsDigits(r[1..]) && DecimalValue(r[1..]) == -v.n
    ensures v.Arr? && |v.elems| > 0 && (forall i :: 0 <= i < |v.elems| ==> ',' !in v.elems[i])
            ==> Split(r, ',') == v.elems
    ensures v.Str? ==> r == v.s
  {
    match v
    case Undefined => "undefined"
    case Null => "null"
    case Bool(b) => if b then "true" else "false"
    case Num(n) => NumberToString(n)
    case Str(s) => s
    case Arr(elems) => ArrayToString(elems)
  }

  /**
   * `String(n)` for a safe integer: an optional `-`, then the decimal digits of its magnitude with
   * no leading zero (zero itself is `0`).
   */
  function NumberToString(n: SafeInteger): (r: string)
    ensures n >= 0 ==> IsDigits(r) && DecimalValue(r) == n && (r == "0" <==> n == 0)
    ensures n > 0 ==> r[0] != '0'
    ensures n < 0 ==> |r| > 1 && r[0] == '-' && r[1] != '0' && IsDigits(r[1..]) && DecimalValue(r[1..]) == -n
  {
    if n < 0 then
      DecimalRoundTrip(-n);
      var r := "-" + NatToDecimal(-n);
      assert r[1..] == NatToDecimal(-n);
      r
    else
      DecimalRoundTrip(n);
      NatToDecimal(n)
  }

  /** `String(a)` for an array of strings: the elements joined by `,`. */
  function ArrayToString(elems: seq<string>): (r: string)
    ensures |elems| > 0 && (forall i :: 0 <= i < |elems| ==> ',' !in elems[i]) ==> Split(r, ',') == elems
  {
    if |elems| > 0 && (forall i :: 0 <= i < |elems| ==> ',' !in elems[i]) then
      SplitJoinInverse(elems, ',');
      Join(elems, ',')
    else Join(elems, ',')
  }

  predicate IsDigits(s: string)
  {
    forall i :: 0 <= i < |s| ==> '0' <= s[i] <= '9'
  }

  function DigitChar(d: nat): (c: char)
    requires d < 10
  {
    ('0' as int + d) as char
  }

  /** Decimal digits of `n`, without leading zeros. */
  function NatToDecimal(n: nat): (s: string)
    ensures |s| > 0
    ensures IsDigits(s)
    ensures n < 10 ==> |s| == 1
    ensures n >= 10 ==> s[0] != '0'
  {
    if n < 10 then [DigitChar(n)] else NatToDecimal(n / 10) + [DigitChar(n % 10)]
  }

  /** The number a string of decimal digits denotes. */
  function DecimalValue(s: string): nat
    requires IsDigits(s)
  {
    if |s| == 0 then 0 else DecimalValue(s[..|s| - 1]) * 10 + (s[|s| - 1] as int - '0' as int)
  }

  /** Reading the digits back gives the number: number-to-string conversion loses nothing. */
  lemma {:induction false} DecimalRoundTrip(n: nat)
    ensures DecimalValue(NatToDecimal(n)) == n
  {
    if n >= 10 {
      var s := NatToDecimal(n);
      assert s[..|s| - 1] == NatToDecimal(n / 10);
      DecimalRoundTrip(n / 10);
    }
  }

  predicate OccursAt(s: string, pat: string, i: nat)
  {
    i + |pat| <= |s| && s[i..i + |pat|] == pat
  }

  /** The first position at or after `i` where `pat` occurs in `s`. */
  function FindFrom(s: string, pat: string, i: nat): (r: Option<nat>)
    ensures r.Some? ==> i <= r.value && OccursAt(s, pat, r.value)
    ensures r.Some? ==> forall j :: i <= j < r.value ==> !OccursAt(s, pat, j)
    ensures r.None? ==> forall j :: i <= j ==> !OccursAt(s, pat, j)
    decreases |s| - i
  {
    if i + |pat| > |s| then None
    else if s[i..i + |pat|] == pat then Some(i)
    else FindFrom(s, pat, i + 1)
  }

  /**
   * GetSubstitution of ECMAScript for a string pattern (no captures): `$$`, `$&`, `` $` `` and `$'`
   * are expanded, every other character (other `$` included) is copied.
   */
  function GetSubstitution(matched: string, str: string, position: nat, template: string): string
    requires position + |matched| <= |str|
  {
    if |template| == 0 then ""
    else if template[0] == '$' && |template| >= 2 && template[1] in "$&`'" then
      var piece :=
        if template[1] == '$' then "$"
        else if template[1] == '&' then matched
        else if template[1] == '`' then str[..position]
        else str[position + |matched|..];
      piece + GetSubstitution(matched, str, position, template[2..])
    else [template[0]] + GetSubstitution(matched, str, position, template[1..])
  }

  /**
   * `s.replace(pat, rep)`: only the first occurrence is replaced, and `rep` is a template. Without
   * an occurrence `s` is returned unchanged; a replacement without `$` goes in literally.
   */
  function Replace(s: string, pat: string, rep: string): (r: string)
    ensures (forall j :: !OccursAt(s, pat, j)) ==> r == s
    ensures '$' !in rep ==> forall p: nat :: OccursAt(s, pat, p) && (forall j :: 0 <= j < p ==> !OccursAt(s, pat, j))
                                  ==> r == s[..p] + rep + s[p + |pat|..]
  {
    match FindFrom(s, pat, 0)
    case None => s
    case Some(p) =>
      if '$' !in rep then
        SubstitutionLiteral(pat, s, p, rep);
        s[..p] + GetSubstitution(pat, s, p, rep) + s[p + |pat|..]
      else s[..p] + GetSubstitution(pat, s, p, rep) + s[p + |pat|..]
  }

  /** A replacement without `$` is inserted literally. */
  lemma {:induction false} SubstitutionLiteral(matched: string, str: string, position: nat, template: string)
    requires position + |matched| <= |str|
    requires '$' !in template
    ensures GetSubstitution(matched, str, position, template) == template
  {
    if |template| > 0 {
      assert template[0] != '$';
      SubstitutionLiteral(matched, str, position, template[1..]);
      assert [template[0]] + template[1..] == template;
    }
  }

  /** The search finds the first occurrence. */
  lemma {:induction false} FindFirst(s: string, pat: string, i: nat, p: nat)
    requires i <= p && OccursAt(s, pat, p)
    requires forall j :: i <= j < p ==> !OccursAt(s, pat, j)
    ensures FindFrom(s, pat, i) == Some(p)
    decreases p - i
  {
    if i < p {
      FindFirst(s, pat, i + 1, p);
    }
  }

  /**
   * Replacing a placeholder whose first character occurs nowhere before it puts the replacement
   * exactly where the placeholder was, provided the replacement holds no `$`.
   */
  lemma ReplacePlaceholder(prefix: string, pat: string, suffix: string, rep: string)
    requires |pat| > 0 && pat[0] !in prefix
    requires '$' !in rep
    ensures Replace(prefix + pat + suffix, pat, rep) == prefix + rep + suffix
  {
    var s := prefix + pat + suffix;
    var p := |prefix|;
    assert s[p..p + |pat|] == pat;
    forall j | 0 <= j < p ensures !OccursAt(s, pat, j) {
      assert s[j] == prefix[j];
    }
    FindFirst(s, pat, 0, p);
    SubstitutionLiteral(pat, s, p, rep);
    assert s[..p] == prefix;
    assert s[p + |pat|..] == suffix;
  }
}
