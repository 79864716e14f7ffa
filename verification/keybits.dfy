/** Key bit arrays: JavaScript arrays whose elements are exactly the numbers
    0 and 1, and the length thresholds the application checks them against. */
module KeyBits {
  import opened JsValue

  /** Fresh keys (and every key used for encryption) need 16 bits. */
  const MinKeyBits: nat := 16
  /** Keys handed to the receiving side need only 8. */
  const MinReceivedKeyBits: nat := 8

  /** `b === 0 || b === 1` */
  predicate IsBit(v: Value) {
    v == Num(0) || v == Num(1)
  }

  predicate AllBits(items: seq<Value>) {
    forall i :: 0 <= i < |items| ==> IsBit(items[i])
  }

  /** `Array.isArray(bits) && bits.length >= minLength && bits.every((b) => b === 0 || b === 1)` */
  predicate ValidBits(v: Value, minLength: nat) {
    v.Arr? && |v.items| >= minLength && AllBits(v.items)
  }

  /** The array elements as integers. */
  function BitInts(items: seq<Value>): (r: seq<int>)
    requires AllBits(items)
    ensures |r| == |items|
    ensures forall i :: 0 <= i < |r| ==> items[i] == Num(r[i]) && (r[i] == 0 || r[i] == 1)
  {
    seq(|items|, i requires 0 <= i < |items| => items[i].n)
  }

  /** The integers as array elements. */
  function BitValues(bits: seq<int>): (r: seq<Value>)
    ensures |r| == |bits|
    ensures forall i :: 0 <= i < |r| ==> r[i] == Num(bits[i])
  {
    seq(|bits|, i requires 0 <= i < |bits| => Num(bits[i]))
  }
}
