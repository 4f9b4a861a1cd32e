/** Values and string helpers shared by the pipeline stages: the scene record
    the script stage produces, Python truthiness of optional string arguments,
    decimal rendering of integers (`str(n)` / f-strings) and `os.path.join`. */
module Common {

  datatype Option<T> = None | Some(value: T) {
    function GetOr(default: T): T {
      match this
      case Some(v) => v
      case None => default
    }
  }

  /** One narrated segment of the script: what is spoken, what is drawn, what is shown. */
  datatype Scene = Scene(narration: string, imagePrompt: string, textOverlay: string)

  /** Python truthiness of an optional string argument: `None` and `""` are false. */
  predicate Truthy(s: Option<string>) {
    s.Some? && s.value != ""
  }

  predicate StartsWith(s: string, prefix: string) {
    |prefix| <= |s| && s[..|prefix|] == prefix
  }

  predicate EndsWith(s: string, suffix: string) {
    |suffix| <= |s| && s[|s| - |suffix|..] == suffix
  }

  /** Python's `sub in s`. */
  predicate Contains(s: string, sub: string)
    decreases |s|
  {
    StartsWith(s, sub) || (s != [] && Contains(s[1..], sub))
  }

  function DigitChar(d: nat): (c: char)
    requires d < 10
    ensures '0' <= c <= '9'
    ensures c as int - '0' as int == d
  {
    (('0' as int) + d) as char
  }

  /** `str(n)` for a non-negative integer: decimal digits, no leading zero. */
  function NatToString(n: nat): (s: string)
    ensures |s| >= 1
    ensures forall i :: 0 <= i < |s| ==> '0' <= s[i] <= '9'
    ensures s[0] == '0' ==> n == 0
    ensures n < 10 <==> |s| == 1
    decreases n
  {
    if n < 10 then [DigitChar(n)] else NatToString(n / 10) + [DigitChar(n % 10)]
  }

  /** `str(i)` for any integer: a minus sign before the digits of a negative value. */
  function IntToString(i: int): (s: string)
    ensures |s| >= 1
    ensures i < 0 <==> s[0] == '-'
  {
    if i < 0 then "-" + NatToString(-i) else NatToString(i)
  }

  /** Distinct numbers are rendered as distinct strings. */
  lemma {:induction false} NatToStringInjective(a: nat, b: nat)
    requires NatToString(a) == NatToString(b)
    ensures a == b
    decreases a
  {
    var sa, sb := NatToString(a), NatToString(b);
    if a >= 10 && b >= 10 {
      assert sa[|sa| - 1] == DigitChar(a % 10);
      assert sb[|sb| - 1] == DigitChar(b % 10);
      assert a % 10 == b % 10;
      assert NatToString(a / 10) == sa[..|sa| - 1] == sb[..|sb| - 1] == NatToString(b / 10);
      NatToStringInjective(a / 10, b / 10);
    } else if a < 10 && b < 10 {
      assert sa[0] == DigitChar(a) && sb[0] == DigitChar(b);
    }
  }

  /** Python's `posixpath.join(folder, name)`: an absolute name replaces the
      folder, an empty folder or one ending in a slash is extended directly,
      and otherwise one slash separates the two. */
  function PathJoin(folder: string, name: string): (p: string)
    ensures EndsWith(p, name)
    ensures !StartsWith(name, "/") ==> StartsWith(p, folder)
  {
    if StartsWith(name, "/") then name
    else if folder == [] || EndsWith(folder, "/") then folder + name
    else folder + "/" + name
  }

  /** A text built as `front + middle + back` starts with `front` and ends with `back`. */
  lemma Framed(front: string, middle: string, back: string)
    ensures StartsWith(front + middle + back, front)
    ensures EndsWith(front + middle + back, back)
  {
    var t := front + middle + back;
    assert t[..|front|] == front;
    assert t[|t| - |back|..] == back;
  }

  /** The file `<stem><index><ext>` in `folder`, as the stages name their per-scene outputs. */
  function IndexedPath(folder: string, stem: string, index: nat, ext: string): string {
    PathJoin(folder, stem + NatToString(index) + ext)
  }

  /** Different scene indices never share a file: a relative stem keeps the
      folder, and the digits between stem and extension determine the index. */
  lemma IndexedPathInjective(folder: string, stem: string, ext: string, i: nat, j: nat)
    requires stem != [] && stem[0] != '/'
    requires IndexedPath(folder, stem, i, ext) == IndexedPath(folder, stem, j, ext)
    ensures i == j
  {
    var ni, nj := stem + NatToString(i) + ext, stem + NatToString(j) + ext;
    assert !StartsWith(ni, "/") && !StartsWith(nj, "/") by {
      assert ni[0] == stem[0] && nj[0] == stem[0];
    }
    var p := PathJoin(folder, ni);
    assert |ni| == |nj|;
    assert ni == p[|p| - |ni|..] == nj;
    assert NatToString(i) == ni[|stem|..|ni| - |ext|];
    assert NatToString(j) == nj[|stem|..|nj| - |ext|];
    NatToStringInjective(i, j);
  }
}
