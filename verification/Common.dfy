/** Declarations shared by the modules of the model. */
module Common {

  datatype Option<+T> = None | Some(value: T)

  const WORD := 0x1_0000_0000_0000_0000  // unsigned long and unsigned long long on LP64
  const NAME_MAX := 63                   // longest device name that fits a char[64]

  /** strncpy of a device name into a char[64]. */
  function Clip(name: string): (c: string)
    ensures |c| <= 63 && c <= name
    ensures |name| > 63 ==> |c| == 63
    ensures c == name <==> |name| <= 63
  {
    if |name| <= NAME_MAX then name else name[..NAME_MAX]
  }

  function Least(a: nat, b: nat): nat {
    if a < b then a else b
  }

  lemma ModMultiple(x: int, k: int)
    ensures (x + k * WORD) % WORD == x % WORD
  {
  }
}
