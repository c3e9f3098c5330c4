/** The handful of Python string operations the services use. */
module Text {
  import opened Common

  /** `sep.join(parts)` */
  function Join(parts: seq<string>, sep: string): string
  {
    if parts == [] then ""
    else if |parts| == 1 then parts[0]
    else parts[0] + sep + Join(parts[1..], sep)
  }

  lemma {:induction false} JoinAppend(a: seq<string>, b: seq<string>, sep: string)
    requires a != [] && b != []
    ensures Join(a + b, sep) == Join(a, sep) + sep + Join(b, sep)
  {
    if |a| == 1 {
      assert (a + b)[1..] == b;
    } else {
      assert (a + b)[1..] == a[1..] + b;
      JoinAppend(a[1..], b, sep);
    }
  }

  /** Position of the first occurrence of `c` in `s` (`s.find(c)`). */
  function Find(s: string, c: char): (r: Option<nat>)
    ensures r.Some? ==> r.value < |s| && s[r.value] == c && c !in s[..r.value]
    ensures r.None? ==> c !in s
  {
    if s == [] then None
    else if s[0] == c then Some(0)
    else match Find(s[1..], c)
      case None => None
      case Some(k) =>
        assert s[1..][..k] == s[1..k + 1];
        Some(k + 1)
  }

  /** `s.split(c, maxsplit)`: split at the first `maxsplit` occurrences of `c`,
      left to right, keeping empty pieces. */
  function Split(s: string, c: char, maxsplit: nat): (r: seq<string>)
    ensures 1 <= |r| <= maxsplit + 1
    ensures Join(r, [c]) == s
    ensures forall i :: 0 <= i < |r| - 1 ==> c !in r[i]
    ensures |r| <= maxsplit ==> c !in r[|r| - 1]
  {
    if maxsplit == 0 then [s]
    else match Find(s, c)
      case None => [s]
      case Some(k) =>
        var rest := Split(s[k + 1..], c, maxsplit - 1);
        assert s == s[..k] + [c] + s[k + 1..];
        assert ([s[..k]] + rest)[1..] == rest;
        [s[..k]] + rest
  }

  function StartsWith(s: string, prefix: string): bool
  {
    |prefix| <= |s| && s[..|prefix|] == prefix
  }

  /** ASCII lower-casing of one character. No character outside A-Z lowers
      to one of the letters of "next", so this is all `str.lower` needs here. */
  function LowerChar(c: char): char
  {
    if 'A' <= c <= 'Z' then (c as int - 'A' as int + 'a' as int) as char else c
  }

  function Lower(s: string): (r: string)
    ensures |r| == |s|
    ensures forall i :: 0 <= i < |s| ==> r[i] == LowerChar(s[i])
  {
    seq(|s|, i requires 0 <= i < |s| => LowerChar(s[i]))
  }

  function DigitChar(d: nat): char
    requires d < 10
  {
    ('0' as int + d) as char
  }

  /** `str(n)` for a natural number. */
  function NatToString(n: nat): (r: string)
    ensures |r| >= 1
    ensures forall i :: 0 <= i < |r| ==> '0' <= r[i] <= '9'
  {
    if n < 10 then [DigitChar(n)] else NatToString(n / 10) + [DigitChar(n % 10)]
  }

  /** `str(i)` for an integer. */
  function IntToString(i: int): string
  {
    if i < 0 then "-" + NatToString(-i) else NatToString(i)
  }
}
