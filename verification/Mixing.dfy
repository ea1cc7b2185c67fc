/** The 32-bit mixer shared by the hash tables and the scan filter (src/bpf/common.h). */
module Mixing {

  function Mix32(x: bv32, seed: bv32): bv32 {
    var a := (x ^ seed) * 0x2545F491;
    var b := (a ^ (a >> 15)) * 0x85EBCA6B;
    var c := (b ^ (b >> 13)) * 0xC2B2AE35;
    c ^ (c >> 16)
  }
}
