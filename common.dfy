/** Shared vocabulary of the ledger model: bytes, the integer widths the
    Rust code uses, the error values it reports, and UTF-8 encoding of
    Rust strings (a `String` turned into `Vec<u8>` is its UTF-8 bytes). */
module Common {

  type byte = x: int | 0 <= x < 256

  type Bytes = seq<byte>

  const I32Max: int := 0x7fff_ffff
  const I32Min: int := -0x8000_0000

  /** Rust `i32`. Arithmetic that could leave the range is guarded by the
      callers' preconditions rather than wrapped (Rust panics in debug builds). */
  type i32 = x: int | I32Min <= x <= I32Max

  /** A SHA-256 digest in hex, as produced by `result_str()`: 64 characters. */
  type HexDigest = s: string | |s| == 64
    witness "0000000000000000000000000000000000000000000000000000000000000000"

  datatype Option<+T> = None | Some(value: T)

  /** The errors the core reports through `Result`. */
  datatype Error =
    | NotEnoughBalance(balance: int)   // "Not Enough balance: current balance {}"
    | PrevTxIncorrect                  // "ERROR: Previous transaction is not correct!"
    | TxNotFound                       // "Transaction not found!"
    | UnknownCommand                   // "Unknown command in the server"
    | Serialization                    // a bincode failure
    | HashFailed                       // an error from the (unseen) transaction hash

  datatype Result<+T> = Ok(value: T) | Err(error: Error)

  /** Outcome of an operation returning `Result<()>`. */
  datatype Outcome = Pass | Fail(error: Error)

  /** The UTF-8 encoding of one Unicode scalar value. */
  function Utf8Char(c: char): (r: Bytes)
    ensures 1 <= |r| <= 4
    ensures (c as int < 0x80) == (|r| == 1)
    ensures (|r| == 1 ==> r[0] == c as int) && (|r| > 1 ==> forall i | 0 <= i < |r| :: r[i] >= 0x80)
  {
    var n := c as int;
    if n < 0x80 then [n]
    else if n < 0x800 then [0xC0 + n / 0x40, 0x80 + n % 0x40]
    else if n < 0x1_0000 then [0xE0 + n / 0x1000, 0x80 + (n / 0x40) % 0x40, 0x80 + n % 0x40]
    else [0xF0 + n / 0x4_0000, 0x80 + (n / 0x1000) % 0x40, 0x80 + (n / 0x40) % 0x40, 0x80 + n % 0x40]
  }

  /** `s.as_bytes()` for a Rust string `s`. */
  function Utf8(s: string): (r: Bytes)
    ensures |r| >= |s|
  {
    Utf8Prefix(s, |s|)
  }

  /** The encoding of the first `n` characters (recursing on the count, not
      on the text, so that a literal text is not unfolded character by
      character). */
  function Utf8Prefix(s: string, n: nat): (r: Bytes)
    requires n <= |s|
    ensures |r| >= n
  {
    if n == 0 then [] else Utf8Prefix(s, n - 1) + Utf8Char(s[n - 1])
  }

  predicate IsAscii(s: string) {
    forall i | 0 <= i < |s| :: s[i] as int < 0x80
  }

  /** On ASCII text UTF-8 is the identity on code points. */
  lemma Utf8Ascii(s: string)
    requires IsAscii(s)
    ensures |Utf8(s)| == |s|
    ensures forall i | 0 <= i < |s| :: Utf8(s)[i] == s[i] as int
  {
    Utf8PrefixAscii(s, |s|);
  }

  lemma {:induction false} Utf8PrefixAscii(s: string, n: nat)
    requires n <= |s| && IsAscii(s)
    ensures |Utf8Prefix(s, n)| == n
    ensures forall i | 0 <= i < n :: Utf8Prefix(s, n)[i] == s[i] as int
  {
    if n > 0 {
      Utf8PrefixAscii(s, n - 1);
    }
  }

  /** A zero byte appears in the encoding only where a NUL character
      appears in the string. */
  lemma Utf8ZeroFree(s: string)
    requires forall i | 0 <= i < |s| :: s[i] != '\0'
    ensures forall i | 0 <= i < |Utf8(s)| :: Utf8(s)[i] != 0
  {
    Utf8PrefixZeroFree(s, |s|);
  }

  lemma {:induction false} Utf8PrefixZeroFree(s: string, n: nat)
    requires n <= |s| && forall i | 0 <= i < |s| :: s[i] != '\0'
    ensures forall i | 0 <= i < |Utf8Prefix(s, n)| :: Utf8Prefix(s, n)[i] != 0
  {
    if n > 0 {
      Utf8PrefixZeroFree(s, n - 1);
      var h, t := Utf8Prefix(s, n - 1), Utf8Char(s[n - 1]);
      forall i | 0 <= i < |h + t| ensures (h + t)[i] != 0 {
        if i >= |h| { assert (h + t)[i] == t[i - |h|]; }
      }
    }
  }
}
