/** Values shared by every part of the model: bytes, the outcome of an
    operation that can raise, and Python's slicing and integer helpers. */
module Common {

  /** A Python `bytes` element. */
  type Byte = b: int | 0 <= b < 256

  type Bytes = seq<Byte>

  datatype Option<+T> = None | Some(value: T)

  /** The exceptions the modelled code can raise, by cause. */
  datatype Error =
    | TransportError      // the HTTP layer or JSON decoding of a response failed
    | StatusError         // `assert status_code == ok` or `raise_for_status`
    | MissingKey          // a dict lookup such as `payload['id']` raised KeyError
    | EncodeError         // `str.encode('ascii')` met a non-ASCII character
    | UnpackError         // `e, h = pair` on a list that does not have two items
    | IntegrityError      // `assert record_hmac == hmac_comp_hex`
    | DecodeError         // `b64decode` or `bytes.fromhex` rejected its input
    | CipherError         // `AES.new` or `decrypt` rejected key, IV or length
    | IndexError          // `contents[-1]` on an empty buffer
    | ParseError          // `json.loads` rejected the plaintext

  datatype Result<+T> = Ok(value: T) | Err(error: Error)

  /** Python's `s[:k]` for any integer `k`: a negative `k` counts from the
      end, and bounds past either end are clamped. */
  function SliceTo<T>(s: seq<T>, k: int): (r: seq<T>)
    ensures 0 <= k <= |s| ==> r == s[..k]
    ensures k > |s| ==> r == s
    ensures -|s| <= k < 0 ==> r == s[..|s| + k]
    ensures k < -|s| ==> r == []
  {
    if k >= 0 then (if k <= |s| then s[..k] else s)
    else if -k <= |s| then s[..|s| + k]
    else []
  }

  /** Python's `s[j:k]` for `0 <= j`, `0 <= k` (both clamped to `|s|`). */
  function Slice<T>(s: seq<T>, j: nat, k: nat): (r: seq<T>)
    ensures j <= k <= |s| ==> r == s[j..k]
    ensures |r| == if j <= k && k <= |s| then k - j else if j <= k && j <= |s| then |s| - j else 0
  {
    var hi := if k <= |s| then k else |s|;
    var lo := if j <= hi then j else hi;
    s[lo..hi]
  }

  /** PostgreSQL integer division, which truncates toward zero (Dafny's `/`
      is Euclidean). */
  function TruncDiv(a: int, b: int): (q: int)
    requires b > 0
    ensures a >= 0 ==> 0 <= a - q * b < b
    ensures a < 0 ==> -b < a - q * b <= 0
  {
    if a >= 0 then a / b else -((-a) / b)
  }

  /** Truncation is symmetric about zero, which Euclidean and floor division
      are not. */
  lemma TruncDivNegate(a: int, b: int)
    requires b > 0
    ensures TruncDiv(-a, b) == -TruncDiv(a, b)
  {
  }

  /** `t` occurs in `s` as a contiguous substring (SQL `s LIKE '%t%'` for a
      `t` without wildcard characters). */
  predicate Contains(s: string, t: string)
    decreases |s|
  {
    |t| <= |s| && (s[..|t|] == t || Contains(s[1..], t))
  }

  /** `t` occurs wherever it is placed. */
  lemma {:induction false} ContainsInfix(a: string, t: string, b: string)
    ensures Contains(a + t + b, t)
    decreases |a|
  {
    if a != [] {
      assert (a + t + b)[1..] == a[1..] + t + b;
      ContainsInfix(a[1..], t, b);
    } else {
      assert (a + t + b)[..|t|] == t;
    }
  }

  /** Whatever contains `t + v` contains `t`. */
  lemma {:induction false} ContainsPrefix(s: string, t: string, v: string)
    requires Contains(s, t + v)
    ensures Contains(s, t)
    decreases |s|
  {
    if s[..|t + v|] == t + v {
      assert s[..|t|] == (t + v)[..|t|] == t;
    } else {
      ContainsPrefix(s[1..], t, v);
    }
  }

  /** A string with a character `s` lacks does not occur in `s`. */
  lemma {:induction false} NotContainsAbsent(s: string, t: string, d: nat)
    requires d < |t| && t[d] !in s
    ensures !Contains(s, t)
    decreases |s|
  {
    if |t| <= |s| {
      assert s[..|t|][d] == s[d];
      NotContainsAbsent(s[1..], t, d);
    }
  }

  /** `t` does not start at any of the first `k` positions of `s` when its
      character `t[d]` is absent from the `k` places it would fall on, and
      it does not occur after them. */
  lemma {:induction false} NotContainsWindow(s: string, t: string, d: nat, k: nat)
    requires d < |t| && d + k <= |s|
    requires t[d] !in s[d..d + k]
    requires !Contains(s[k..], t)
    ensures !Contains(s, t)
    decreases k
  {
    if k > 0 {
      assert s[1..][d..d + k - 1] == s[d + 1..d + k];
      assert s[1..][k - 1..] == s[k..];
      NotContainsWindow(s[1..], t, d, k - 1);
    }
  }

  predicate IsAscii(s: string)
  {
    forall i :: 0 <= i < |s| ==> s[i] as int < 128
  }

  /** `s.encode('ascii')` for an ASCII string. */
  function AsciiBytes(s: string): (r: Bytes)
    requires IsAscii(s)
    ensures |r| == |s|
    ensures forall i :: 0 <= i < |s| ==> r[i] == s[i] as int
  {
    seq(|s|, i requires 0 <= i < |s| => s[i] as int as Byte)
  }
}
