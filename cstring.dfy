/**
 * C strings as the C library sees them: a byte buffer that holds a NUL byte
 * somewhere, whose string value is everything before the first NUL.
 * `Strncmp` is the C library's bounded comparison.
 */
module CString {

  newtype byte = x: int | 0 <= x < 256

  /** A buffer the C library may treat as a string: it is NUL-terminated. */
  predicate IsCString(s: seq<byte>) {
    exists i :: 0 <= i < |s| && s[i] == 0
  }

  /** No byte of `s` is NUL: `s` is the contents of a string literal or of a SQL text value. */
  predicate NulFree(s: seq<byte>) {
    forall i :: 0 <= i < |s| ==> s[i] != 0
  }

  /** The buffer a string literal (or `text_to_cstring`) produces: the bytes, then one NUL. */
  function Terminated(s: seq<byte>): (c: seq<byte>)
    ensures |c| == |s| + 1 && c[|s|] == 0 && IsCString(c)
    ensures c[..|s|] == s
  {
    s + [0]
  }

  /** `strlen`: the index of the first NUL byte. */
  function Strlen(s: seq<byte>): (n: nat)
    requires IsCString(s)
    ensures n < |s| && s[n] == 0
    ensures forall i :: 0 <= i < n ==> s[i] != 0
  {
    if s[0] == 0 then 0
    else
      assert IsCString(s[1..]) by {
        var i :| 0 <= i < |s| && s[i] == 0;
        assert s[1..][i - 1] == 0;
      }
      1 + Strlen(s[1..])
  }

  /** The string value of a C buffer: the bytes before its first NUL. */
  function Contents(s: seq<byte>): (t: seq<byte>)
    requires IsCString(s)
    ensures NulFree(t) && |t| < |s| && s[|t|] == 0
    ensures t == s[..|t|]
  {
    s[..Strlen(s)]
  }

  /**
   * `strncmp(a, b, n)`: compares at most `n` bytes, as unsigned chars, and
   * stops after the first position where both hold NUL. Zero means "equal";
   * otherwise the sign orders the first differing bytes.
   */
  function Strncmp(a: seq<byte>, b: seq<byte>, n: nat): (r: int)
    requires IsCString(a) && IsCString(b)
    ensures n == 0 ==> r == 0
    ensures n > 0 && a[0] != b[0] ==> (r < 0 <==> a[0] < b[0]) && r != 0
    decreases n
  {
    if n == 0 then 0
    else if a[0] != b[0] then a[0] as int - b[0] as int
    else if a[0] == 0 then 0
    else
      assert IsCString(a[1..]) && IsCString(b[1..]) by {
        var i :| 0 <= i < |a| && a[i] == 0;
        assert a[1..][i - 1] == 0;
        var j :| 0 <= j < |b| && b[j] == 0;
        assert b[1..][j - 1] == 0;
      }
      Strncmp(a[1..], b[1..], n - 1)
  }

  /** A buffer that starts with a non-NUL byte keeps its NUL after dropping that byte. */
  lemma {:induction false} TailIsCString(s: seq<byte>)
    requires IsCString(s) && s[0] != 0
    ensures IsCString(s[1..])
    ensures Strlen(s) == 1 + Strlen(s[1..])
    ensures Contents(s) == [s[0]] + Contents(s[1..])
  {
    var i :| 0 <= i < |s| && s[i] == 0;
    assert s[1..][i - 1] == 0;
    assert Contents(s) == s[..Strlen(s)];
    assert s[1..][..Strlen(s[1..])] == s[1..Strlen(s)];
  }

  /**
   * When the bound reaches past the end of at least one of the two strings
   * (it covers that string's terminating NUL), `strncmp` returns zero exactly
   * when the two string values are equal: neither may be a proper prefix of
   * the other.
   */
  lemma {:induction false} StrncmpPastEndIsEquality(a: seq<byte>, b: seq<byte>, n: nat)
    requires IsCString(a) && IsCString(b)
    requires n > Strlen(a) || n > Strlen(b)
    ensures Strncmp(a, b, n) == 0 <==> Contents(a) == Contents(b)
    decreases n
  {
    if a[0] != b[0] {
      if a[0] == 0 {
        assert Contents(a) == [];
        assert Strlen(b) > 0;
        assert Contents(b)[0] == b[0];
      } else if b[0] == 0 {
        assert Contents(b) == [];
        assert Strlen(a) > 0;
        assert Contents(a)[0] == a[0];
      } else {
        assert Contents(a)[0] == a[0] && Contents(b)[0] == b[0];
      }
    } else if a[0] == 0 {
      assert Strlen(a) == 0 && Strlen(b) == 0;
      assert Contents(a) == [] == Contents(b);
    } else {
      TailIsCString(a);
      TailIsCString(b);
      StrncmpPastEndIsEquality(a[1..], b[1..], n - 1);
      assert Contents(a) == Contents(b) <==> Contents(a[1..]) == Contents(b[1..]) by {
        if Contents(a) == Contents(b) {
          assert Contents(a)[1..] == Contents(a[1..]);
          assert Contents(b)[1..] == Contents(b[1..]);
        }
      }
    }
  }

  /** The string value of a terminated NUL-free byte sequence is that sequence. */
  lemma ContentsOfTerminated(s: seq<byte>)
    requires NulFree(s)
    ensures Strlen(Terminated(s)) == |s|
    ensures Contents(Terminated(s)) == s
  {
  }
}
