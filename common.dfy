/** Small value types and string helpers shared by the rest of the model. */
module Common {

  datatype Option<+T> = None | Some(value: T)

  datatype Result<+T, +E> = Ok(value: T) | Err(error: E)

  function Max(a: int, b: int): int { if a >= b then a else b }

  function Min(a: int, b: int): int { if a <= b then a else b }

  /** `s` begins with `prefix` (Python's str.startswith). */
  predicate StartsWith(s: string, prefix: string)
  {
    |prefix| <= |s| && s[..|prefix|] == prefix
  }

  /** `part` occurs somewhere in `s` (Python's `part in s`). */
  predicate Contains(s: string, part: string)
  {
    exists i :: 0 <= i <= |s| - |part| && s[i..][..|part|] == part
  }

  /** Decimal digits of a natural number, most significant first. */
  function NatToString(n: nat): (s: string)
    ensures |s| >= 1
    ensures forall i :: 0 <= i < |s| ==> '0' <= s[i] <= '9'
    decreases n
  {
    var d := [(('0' as int) + n % 10) as char];
    if n < 10 then d else NatToString(n / 10) + d
  }

  /** Python's str() of an int: a minus sign, then the digits. */
  function IntToString(n: int): string
  {
    if n < 0 then "-" + NatToString(-n) else NatToString(n)
  }

  /** The characters Python's str.isspace() accepts, which str.strip() removes. */
  predicate IsSpace(c: char)
  {
    if c <= ' ' then c == ' ' || '\t' <= c <= '\r' || '\U{001C}' <= c <= '\U{001F}'
    else if c < '\U{0085}' then false
    else
      || c == '\U{0085}' || c == '\U{00A0}' || c == '\U{1680}' || '\U{2000}' <= c <= '\U{200A}'
      || c == '\U{2028}' || c == '\U{2029}' || c == '\U{202F}' || c == '\U{205F}' || c == '\U{3000}'
  }

  function TrimLeft(s: string): (r: string)
    ensures |r| <= |s| && r == s[|s| - |r|..]
    ensures r == [] || !IsSpace(r[0])
    ensures forall i :: 0 <= i < |s| - |r| ==> IsSpace(s[i])
  {
    if s != [] && IsSpace(s[0]) then TrimLeft(s[1..]) else s
  }

  function TrimRight(s: string): (r: string)
    ensures |r| <= |s| && r == s[..|r|]
    ensures r == [] || !IsSpace(r[|r| - 1])
    ensures forall i :: |r| <= i < |s| ==> IsSpace(s[i])
  {
    if s != [] && IsSpace(s[|s| - 1]) then TrimRight(s[..|s| - 1]) else s
  }

  /** Python's str.strip() with no argument. */
  function Strip(s: string): string
  {
    TrimRight(TrimLeft(s))
  }

  /** ASCII lower-casing (Python's str.lower() on ASCII letters). */
  function LowerChar(c: char): char
  {
    if 'A' <= c <= 'Z' then ((c as int) - ('A' as int) + ('a' as int)) as char else c
  }

  function Lower(s: string): (r: string)
    ensures |r| == |s|
    ensures forall i :: 0 <= i < |s| ==> r[i] == LowerChar(s[i])
  {
    seq(|s|, i requires 0 <= i < |s| => LowerChar(s[i]))
  }

  predicate IsAsciiLetter(c: char)
  {
    'a' <= c <= 'z' || 'A' <= c <= 'Z'
  }

  function UpperChar(c: char): char
  {
    if 'a' <= c <= 'z' then ((c as int) - ('a' as int) + ('A' as int)) as char else c
  }

  /** Every occurrence of `from` replaced by `to`. */
  function ReplaceChar(s: string, from: char, to: char): (r: string)
    ensures |r| == |s|
    ensures forall i :: 0 <= i < |s| ==> r[i] == (if s[i] == from then to else s[i])
  {
    seq(|s|, i requires 0 <= i < |s| => if s[i] == from then to else s[i])
  }

  /**
   * Python's str.title() on ASCII: a letter that follows a letter is
   * lower-cased, any other letter upper-cased; other characters are kept.
   */
  function TitleFrom(s: string, afterLetter: bool): (r: string)
    ensures |r| == |s|
  {
    if s == [] then []
    else
      var c := s[0];
      var head := if !IsAsciiLetter(c) then c else if afterLetter then LowerChar(c) else UpperChar(c);
      [head] + TitleFrom(s[1..], IsAsciiLetter(c))
  }

  function Title(s: string): string
  {
    TitleFrom(s, false)
  }

  /**
   * The indices `i` with `owners[i] == uid`, largest first: where the rows
   * of one user sit in a table kept in creation order, newest first.
   */
  function NewestIndices(owners: seq<nat>, uid: nat): (r: seq<nat>)
    ensures forall j :: 0 <= j < |r| ==> r[j] < |owners| && owners[r[j]] == uid
    ensures forall i, j :: 0 <= i < j < |r| ==> r[i] > r[j]
    ensures forall i :: 0 <= i < |owners| && owners[i] == uid ==> i in r
    decreases |owners|
  {
    if owners == [] then []
    else
      var rest := NewestIndices(owners[..|owners| - 1], uid);
      if owners[|owners| - 1] == uid then [|owners| - 1] + rest else rest
  }

  /**
   * One step of a newest-first listing: if `older` lists the rows of `xs`
   * without its last one in the order of NewestIndices, then putting the
   * last row in front when it belongs to `uid` lists all of `xs` that way.
   */
  lemma NewestStep<T>(xs: seq<T>, owners: seq<nat>, uid: nat, older: seq<T>, r: seq<T>)
    requires |xs| == |owners| > 0
    requires var front := NewestIndices(owners[..|owners| - 1], uid);
      |older| == |front| && forall j :: 0 <= j < |front| ==> older[j] == xs[front[j]]
    requires r == if owners[|owners| - 1] == uid then [xs[|xs| - 1]] + older else older
    ensures var pos := NewestIndices(owners, uid);
      |r| == |pos| && forall j :: 0 <= j < |pos| ==> r[j] == xs[pos[j]]
  {
  }
}
