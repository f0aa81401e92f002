// Sequence helpers standing for the LINQ operators the hospital code uses
// (FirstOrDefault, OfType) and the decimal rendering of string interpolation.

datatype Option<T> = None | Some(value: T)

/** Index of the first element satisfying `p`; `None` where LINQ's FirstOrDefault yields null. */
function FirstIndex<T>(s: seq<T>, p: T -> bool): (r: Option<nat>)
  ensures r.Some? ==> r.value < |s| && p(s[r.value])
  ensures r.Some? ==> forall j :: 0 <= j < r.value ==> !p(s[j])
  ensures r.None? <==> forall j :: 0 <= j < |s| ==> !p(s[j])
{
  if s == [] then None
  else if p(s[0]) then Some(0)
  else match FirstIndex(s[1..], p)
    case None => None
    case Some(k) => Some(k + 1)
}

/** The elements that `f` maps to `Some`, in order: LINQ's OfType<T>().ToList(). */
function FilterMap<T, U>(s: seq<T>, f: T -> Option<U>): (r: seq<U>)
  ensures |r| <= |s|
  ensures forall k :: 0 <= k < |r| ==> exists i :: 0 <= i < |s| && f(s[i]) == Some(r[k])
  ensures forall i :: 0 <= i < |s| && f(s[i]).Some? ==> f(s[i]).value in r
{
  if s == [] then []
  else
    var rest := FilterMap(s[1..], f);
    assert forall i :: 1 <= i < |s| ==> s[i] == s[1..][i - 1];
    match f(s[0])
    case Some(y) => [y] + rest
    case None => rest
}

/** The filter keeps the input's order: filtering a concatenation concatenates the filtered parts. */
lemma {:induction false} FilterMapConcat<T, U>(s: seq<T>, t: seq<T>, f: T -> Option<U>)
  ensures FilterMap(s + t, f) == FilterMap(s, f) + FilterMap(t, f)
{
  if s == [] {
    assert s + t == t;
  } else {
    assert (s + t)[1..] == s[1..] + t;
    FilterMapConcat(s[1..], t, f);
  }
}

/** Two sequences that differ at one position are different. */
lemma DiffersAt<T>(s: seq<T>, t: seq<T>, i: nat)
  requires i < |s| && i < |t| && s[i] != t[i]
  ensures s != t
{
}

function DigitChar(d: nat): (c: char)
  requires d < 10
  ensures '0' <= c <= '9'
{
  "0123456789"[d]
}

/** Decimal digits of `n`, most significant first, as C# renders an int. */
function NatToString(n: nat): (s: string)
  ensures |s| >= 1
  ensures forall i :: 0 <= i < |s| ==> '0' <= s[i] <= '9'
{
  if n < 10 then [DigitChar(n)] else NatToString(n / 10) + [DigitChar(n % 10)]
}

function IntToString(i: int): (s: string)
  ensures |s| >= 1
  ensures (s[0] == '-') <==> i < 0
{
  if i < 0 then "-" + NatToString(-i) else NatToString(i)
}
