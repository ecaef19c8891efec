/** The BMI2 instructions on words: gathering and scattering the bits at mask positions. */
module BitSelection {
  import opened BitWords
  import opened Selection

  /** PEXT: the selected bits at the low end, zeros above. */
  function Pext(s: Word, mask: Word): (r: Word)
    requires |s| == |mask|
    ensures |r| == |s|
  {
    Filter(s, mask) + Zeros(|s| - Pop(mask))
  }

  /** PDEP: the low bits at the mask positions. */
  function Pdep(v: Word, mask: Word): (r: Word)
    requires |v| == |mask|
    ensures |r| == |v|
  {
    Deposit(v, mask, false)
  }
}
