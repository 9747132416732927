/**
 * The foreign primitives both ledgers call but never define: SHA-256, JSON
 * serialisation, RSA signing and verification. Each one is an uninterpreted
 * function value handed to the ledgers, so nothing below depends on how the
 * primitive works. The one fact about RSA that a property needs (a signature
 * made with a private key verifies under the matching public key) is the
 * predicate MatchingKeys, used only as a hypothesis.
 */
module Crypto {

  datatype Option<+T> = None | Some(value: T)

  /** SHA-256 in hex (`sha256`) together with the serialiser applied to a block's payload. */
  datatype Hashing<!T> = Hashing(sha256: string -> string, stringify: T -> string)

  /**
   * `sign(payload, privateKey)` is the hex signature; `verify(publicKey, payload, signature)`
   * is the verifier's verdict.
   */
  datatype Signer = Signer(sign: (string, string) -> string, verify: (string, string, string) -> bool)

  /** The key pair generated together: every signature made with `privateKey` is non-empty hex and verifies under `publicKey`. */
  ghost predicate MatchingKeys(signer: Signer, publicKey: string, privateKey: string)
  {
    forall payload: string ::
      signer.sign(payload, privateKey) != "" && signer.verify(publicKey, payload, signer.sign(payload, privateKey))
  }

  function DigitChar(d: nat): (c: char)
    requires d < 10
    ensures '0' <= c <= '9'
    ensures c as int - '0' as int == d
  {
    "0123456789"[d]
  }

  /** The number a text of decimal digits denotes, read from the left. */
  function DigitsValue(s: string): int
  {
    if s == [] then 0 else 10 * DigitsValue(s[..|s| - 1]) + (s[|s| - 1] as int - '0' as int)
  }

  /** The number a possibly signed decimal text denotes: a leading minus sign negates the digits after it. */
  function IntValue(s: string): int
  {
    if s != [] && s[0] == '-' then -DigitsValue(s[1..]) else DigitsValue(s)
  }

  /** The decimal text JavaScript produces when a non-negative integer meets `+` with a string. */
  function Decimal(n: nat): (s: string)
    ensures |s| >= 1
    ensures forall i :: 0 <= i < |s| ==> '0' <= s[i] <= '9'
    ensures (s[0] == '0') == (n == 0)
    ensures DigitsValue(s) == n
  {
    if n < 10 then [DigitChar(n)]
    else
      var s := Decimal(n / 10) + [DigitChar(n % 10)];
      assert s[..|s| - 1] == Decimal(n / 10);
      s
  }

  /** The same for any integer: a leading minus sign for negative numbers. */
  function IntText(n: int): (s: string)
    ensures |s| >= 1
    ensures (s[0] == '-') == (n < 0)
    ensures IntValue(s) == n
  {
    if n < 0 then
      var s := "-" + Decimal(-n);
      assert s[1..] == Decimal(-n);
      s
    else Decimal(n)
  }

  /** Different numbers have different texts. */
  lemma DecimalInjective(m: nat, n: nat)
    requires Decimal(m) == Decimal(n)
    ensures m == n
  {
  }

  lemma IntTextInjective(m: int, n: int)
    requires IntText(m) == IntText(n)
    ensures m == n
  {
  }
}
