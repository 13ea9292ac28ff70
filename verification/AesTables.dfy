/** The tables of AES, row by row, and what they have to do with each other. */
module AesTables {
  function SboxRow0(low: bv8): bv8 {
    match low
    case 0 => 0x63 case 1 => 0x7C case 2 => 0x77 case 3 => 0x7B case 4 => 0xF2 case 5 => 0x6B
    case 6 => 0x6F case 7 => 0xC5 case 8 => 0x30 case 9 => 0x01 case 10 => 0x67 case 11 => 0x2B
    case 12 => 0xFE case 13 => 0xD7 case 14 => 0xAB case _ => 0x76
  }

  function SboxRow1(low: bv8): bv8 {
    match low
    case 0 => 0xCA case 1 => 0x82 case 2 => 0xC9 case 3 => 0x7D case 4 => 0xFA case 5 => 0x59
    case 6 => 0x47 case 7 => 0xF0 case 8 => 0xAD case 9 => 0xD4 case 10 => 0xA2 case 11 => 0xAF
    case 12 => 0x9C case 13 => 0xA4 case 14 => 0x72 case _ => 0xC0
  }

  function SboxRow2(low: bv8): bv8 {
    match low
    case 0 => 0xB7 case 1 => 0xFD case 2 => 0x93 case 3 => 0x26 case 4 => 0x36 case 5 => 0x3F
    case 6 => 0xF7 case 7 => 0xCC case 8 => 0x34 case 9 => 0xA5 case 10 => 0xE5 case 11 => 0xF1
    case 12 => 0x71 case 13 => 0xD8 case 14 => 0x31 case _ => 0x15
  }

  function SboxRow3(low: bv8): bv8 {
    match low
    case 0 => 0x04 case 1 => 0xC7 case 2 => 0x23 case 3 => 0xC3 case 4 => 0x18 case 5 => 0x96
    case 6 => 0x05 case 7 => 0x9A case 8 => 0x07 case 9 => 0x12 case 10 => 0x80 case 11 => 0xE2
    case 12 => 0xEB case 13 => 0x27 case 14 => 0xB2 case _ => 0x75
  }

  function SboxRow4(low: bv8): bv8 {
    match low
    case 0 => 0x09 case 1 => 0x83 case 2 => 0x2C case 3 => 0x1A case 4 => 0x1B case 5 => 0x6E
    case 6 => 0x5A case 7 => 0xA0 case 8 => 0x52 case 9 => 0x3B case 10 => 0xD6 case 11 => 0xB3
    case 12 => 0x29 case 13 => 0xE3 case 14 => 0x2F case _ => 0x84
  }

  function SboxRow5(low: bv8): bv8 {
    match low
    case 0 => 0x53 case 1 => 0xD1 case 2 => 0x00 case 3 => 0xED case 4 => 0x20 case 5 => 0xFC
    case 6 => 0xB1 case 7 => 0x5B case 8 => 0x6A case 9 => 0xCB case 10 => 0xBE case 11 => 0x39
    case 12 => 0x4A case 13 => 0x4C case 14 => 0x58 case _ => 0xCF
  }

  function SboxRow6(low: bv8): bv8 {
    match low
    case 0 => 0xD0 case 1 => 0xEF case 2 => 0xAA case 3 => 0xFB case 4 => 0x43 case 5 => 0x4D
    case 6 => 0x33 case 7 => 0x85 case 8 => 0x45 case 9 => 0xF9 case 10 => 0x02 case 11 => 0x7F
    case 12 => 0x50 case 13 => 0x3C case 14 => 0x9F case _ => 0xA8
  }

  function SboxRow7(low: bv8): bv8 {
    match low
    case 0 => 0x51 case 1 => 0xA3 case 2 => 0x40 case 3 => 0x8F case 4 => 0x92 case 5 => 0x9D
    case 6 => 0x38 case 7 => 0xF5 case 8 => 0xBC case 9 => 0xB6 case 10 => 0xDA case 11 => 0x21
    case 12 => 0x10 case 13 => 0xFF case 14 => 0xF3 case _ => 0xD2
  }

  function SboxRow8(low: bv8): bv8 {
    match low
    case 0 => 0xCD case 1 => 0x0C case 2 => 0x13 case 3 => 0xEC case 4 => 0x5F case 5 => 0x97
    case 6 => 0x44 case 7 => 0x17 case 8 => 0xC4 case 9 => 0xA7 case 10 => 0x7E case 11 => 0x3D
    case 12 => 0x64 case 13 => 0x5D case 14 => 0x19 case _ => 0x73
  }

  function SboxRow9(low: bv8): bv8 {
    match low
    case 0 => 0x60 case 1 => 0x81 case 2 => 0x4F case 3 => 0xDC case 4 => 0x22 case 5 => 0x2A
    case 6 => 0x90 case 7 => 0x88 case 8 => 0x46 case 9 => 0xEE case 10 => 0xB8 case 11 => 0x14
    case 12 => 0xDE case 13 => 0x5E case 14 => 0x0B case _ => 0xDB
  }

  function SboxRowA(low: bv8): bv8 {
    match low
    case 0 => 0xE0 case 1 => 0x32 case 2 => 0x3A case 3 => 0x0A case 4 => 0x49 case 5 => 0x06
    case 6 => 0x24 case 7 => 0x5C case 8 => 0xC2 case 9 => 0xD3 case 10 => 0xAC case 11 => 0x62
    case 12 => 0x91 case 13 => 0x95 case 14 => 0xE4 case _ => 0x79
  }

  function SboxRowB(low: bv8): bv8 {
    match low
    case 0 => 0xE7 case 1 => 0xC8 case 2 => 0x37 case 3 => 0x6D case 4 => 0x8D case 5 => 0xD5
    case 6 => 0x4E case 7 => 0xA9 case 8 => 0x6C case 9 => 0x56 case 10 => 0xF4 case 11 => 0xEA
    case 12 => 0x65 case 13 => 0x7A case 14 => 0xAE case _ => 0x08
  }

  function SboxRowC(low: bv8): bv8 {
    match low
    case 0 => 0xBA case 1 => 0x78 case 2 => 0x25 case 3 => 0x2E case 4 => 0x1C case 5 => 0xA6
    case 6 => 0xB4 case 7 => 0xC6 case 8 => 0xE8 case 9 => 0xDD case 10 => 0x74 case 11 => 0x1F
    case 12 => 0x4B case 13 => 0xBD case 14 => 0x8B case _ => 0x8A
  }

  function SboxRowD(low: bv8): bv8 {
    match low
    case 0 => 0x70 case 1 => 0x3E case 2 => 0xB5 case 3 => 0x66 case 4 => 0x48 case 5 => 0x03
    case 6 => 0xF6 case 7 => 0x0E case 8 => 0x61 case 9 => 0x35 case 10 => 0x57 case 11 => 0xB9
    case 12 => 0x86 case 13 => 0xC1 case 14 => 0x1D case _ => 0x9E
  }

  function SboxRowE(low: bv8): bv8 {
    match low
    case 0 => 0xE1 case 1 => 0xF8 case 2 => 0x98 case 3 => 0x11 case 4 => 0x69 case 5 => 0xD9
    case 6 => 0x8E case 7 => 0x94 case 8 => 0x9B case 9 => 0x1E case 10 => 0x87 case 11 => 0xE9
    case 12 => 0xCE case 13 => 0x55 case 14 => 0x28 case _ => 0xDF
  }

  function SboxRowF(low: bv8): bv8 {
    match low
    case 0 => 0x8C case 1 => 0xA1 case 2 => 0x89 case 3 => 0x0D case 4 => 0xBF case 5 => 0xE6
    case 6 => 0x42 case 7 => 0x68 case 8 => 0x41 case 9 => 0x99 case 10 => 0x2D case 11 => 0x0F
    case 12 => 0xB0 case 13 => 0x54 case 14 => 0xBB case _ => 0x16
  }

  /** The substitution of bytes. */
  function Sbox(u: bv8): bv8 {
    match u >> 4
    case 0 => SboxRow0(u & 15)
    case 1 => SboxRow1(u & 15)
    case 2 => SboxRow2(u & 15)
    case 3 => SboxRow3(u & 15)
    case 4 => SboxRow4(u & 15)
    case 5 => SboxRow5(u & 15)
    case 6 => SboxRow6(u & 15)
    case 7 => SboxRow7(u & 15)
    case 8 => SboxRow8(u & 15)
    case 9 => SboxRow9(u & 15)
    case 10 => SboxRowA(u & 15)
    case 11 => SboxRowB(u & 15)
    case 12 => SboxRowC(u & 15)
    case 13 => SboxRowD(u & 15)
    case 14 => SboxRowE(u & 15)
    case _ => SboxRowF(u & 15)
  }

  function InvSboxRow0(low: bv8): bv8 {
    match low
    case 0 => 0x52 case 1 => 0x09 case 2 => 0x6A case 3 => 0xD5 case 4 => 0x30 case 5 => 0x36
    case 6 => 0xA5 case 7 => 0x38 case 8 => 0xBF case 9 => 0x40 case 10 => 0xA3 case 11 => 0x9E
    case 12 => 0x81 case 13 => 0xF3 case 14 => 0xD7 case _ => 0xFB
  }

  function InvSboxRow1(low: bv8): bv8 {
    match low
    case 0 => 0x7C case 1 => 0xE3 case 2 => 0x39 case 3 => 0x82 case 4 => 0x9B case 5 => 0x2F
    case 6 => 0xFF case 7 => 0x87 case 8 => 0x34 case 9 => 0x8E case 10 => 0x43 case 11 => 0x44
    case 12 => 0xC4 case 13 => 0xDE case 14 => 0xE9 case _ => 0xCB
  }

  function InvSboxRow2(low: bv8): bv8 {
    match low
    case 0 => 0x54 case 1 => 0x7B case 2 => 0x94 case 3 => 0x32 case 4 => 0xA6 case 5 => 0xC2
    case 6 => 0x23 case 7 => 0x3D case 8 => 0xEE case 9 => 0x4C case 10 => 0x95 case 11 => 0x0B
    case 12 => 0x42 case 13 => 0xFA case 14 => 0xC3 case _ => 0x4E
  }

  function InvSboxRow3(low: bv8): bv8 {
    match low
    case 0 => 0x08 case 1 => 0x2E case 2 => 0xA1 case 3 => 0x66 case 4 => 0x28 case 5 => 0xD9
    case 6 => 0x24 case 7 => 0xB2 case 8 => 0x76 case 9 => 0x5B case 10 => 0xA2 case 11 => 0x49
    case 12 => 0x6D case 13 => 0x8B case 14 => 0xD1 case _ => 0x25
  }

  function InvSboxRow4(low: bv8): bv8 {
    match low
    case 0 => 0x72 case 1 => 0xF8 case 2 => 0xF6 case 3 => 0x64 case 4 => 0x86 case 5 => 0x68
    case 6 => 0x98 case 7 => 0x16 case 8 => 0xD4 case 9 => 0xA4 case 10 => 0x5C case 11 => 0xCC
    case 12 => 0x5D case 13 => 0x65 case 14 => 0xB6 case _ => 0x92
  }

  function InvSboxRow5(low: bv8): bv8 {
    match low
    case 0 => 0x6C case 1 => 0x70 case 2 => 0x48 case 3 => 0x50 case 4 => 0xFD case 5 => 0xED
    case 6 => 0xB9 case 7 => 0xDA case 8 => 0x5E case 9 => 0x15 case 10 => 0x46 case 11 => 0x57
    case 12 => 0xA7 case 13 => 0x8D case 14 => 0x9D case _ => 0x84
  }

  function InvSboxRow6(low: bv8): bv8 {
    match low
    case 0 => 0x90 case 1 => 0xD8 case 2 => 0xAB case 3 => 0x00 case 4 => 0x8C case 5 => 0xBC
    case 6 => 0xD3 case 7 => 0x0A case 8 => 0xF7 case 9 => 0xE4 case 10 => 0x58 case 11 => 0x05
    case 12 => 0xB8 case 13 => 0xB3 case 14 => 0x45 case _ => 0x06
  }

  function InvSboxRow7(low: bv8): bv8 {
    match low
    case 0 => 0xD0 case 1 => 0x2C case 2 => 0x1E case 3 => 0x8F case 4 => 0xCA case 5 => 0x3F
    case 6 => 0x0F case 7 => 0x02 case 8 => 0xC1 case 9 => 0xAF case 10 => 0xBD case 11 => 0x03
    case 12 => 0x01 case 13 => 0x13 case 14 => 0x8A case _ => 0x6B
  }

  function InvSboxRow8(low: bv8): bv8 {
    match low
    case 0 => 0x3A case 1 => 0x91 case 2 => 0x11 case 3 => 0x41 case 4 => 0x4F case 5 => 0x67
    case 6 => 0xDC case 7 => 0xEA case 8 => 0x97 case 9 => 0xF2 case 10 => 0xCF case 11 => 0xCE
    case 12 => 0xF0 case 13 => 0xB4 case 14 => 0xE6 case _ => 0x73
  }

  function InvSboxRow9(low: bv8): bv8 {
    match low
    case 0 => 0x96 case 1 => 0xAC case 2 => 0x74 case 3 => 0x22 case 4 => 0xE7 case 5 => 0xAD
    case 6 => 0x35 case 7 => 0x85 case 8 => 0xE2 case 9 => 0xF9 case 10 => 0x37 case 11 => 0xE8
    case 12 => 0x1C case 13 => 0x75 case 14 => 0xDF case _ => 0x6E
  }

  function InvSboxRowA(low: bv8): bv8 {
    match low
    case 0 => 0x47 case 1 => 0xF1 case 2 => 0x1A case 3 => 0x71 case 4 => 0x1D case 5 => 0x29
    case 6 => 0xC5 case 7 => 0x89 case 8 => 0x6F case 9 => 0xB7 case 10 => 0x62 case 11 => 0x0E
    case 12 => 0xAA case 13 => 0x18 case 14 => 0xBE case _ => 0x1B
  }

  function InvSboxRowB(low: bv8): bv8 {
    match low
    case 0 => 0xFC case 1 => 0x56 case 2 => 0x3E case 3 => 0x4B case 4 => 0xC6 case 5 => 0xD2
    case 6 => 0x79 case 7 => 0x20 case 8 => 0x9A case 9 => 0xDB case 10 => 0xC0 case 11 => 0xFE
    case 12 => 0x78 case 13 => 0xCD case 14 => 0x5A case _ => 0xF4
  }

  function InvSboxRowC(low: bv8): bv8 {
    match low
    case 0 => 0x1F case 1 => 0xDD case 2 => 0xA8 case 3 => 0x33 case 4 => 0x88 case 5 => 0x07
    case 6 => 0xC7 case 7 => 0x31 case 8 => 0xB1 case 9 => 0x12 case 10 => 0x10 case 11 => 0x59
    case 12 => 0x27 case 13 => 0x80 case 14 => 0xEC case _ => 0x5F
  }

  function InvSboxRowD(low: bv8): bv8 {
    match low
    case 0 => 0x60 case 1 => 0x51 case 2 => 0x7F case 3 => 0xA9 case 4 => 0x19 case 5 => 0xB5
    case 6 => 0x4A case 7 => 0x0D case 8 => 0x2D case 9 => 0xE5 case 10 => 0x7A case 11 => 0x9F
    case 12 => 0x93 case 13 => 0xC9 case 14 => 0x9C case _ => 0xEF
  }

  function InvSboxRowE(low: bv8): bv8 {
    match low
    case 0 => 0xA0 case 1 => 0xE0 case 2 => 0x3B case 3 => 0x4D case 4 => 0xAE case 5 => 0x2A
    case 6 => 0xF5 case 7 => 0xB0 case 8 => 0xC8 case 9 => 0xEB case 10 => 0xBB case 11 => 0x3C
    case 12 => 0x83 case 13 => 0x53 case 14 => 0x99 case _ => 0x61
  }

  function InvSboxRowF(low: bv8): bv8 {
    match low
    case 0 => 0x17 case 1 => 0x2B case 2 => 0x04 case 3 => 0x7E case 4 => 0xBA case 5 => 0x77
    case 6 => 0xD6 case 7 => 0x26 case 8 => 0xE1 case 9 => 0x69 case 10 => 0x14 case 11 => 0x63
    case 12 => 0x55 case 13 => 0x21 case 14 => 0x0C case _ => 0x7D
  }

  /** The inverse substitution. */
  function InvSbox(u: bv8): bv8 {
    match u >> 4
    case 0 => InvSboxRow0(u & 15)
    case 1 => InvSboxRow1(u & 15)
    case 2 => InvSboxRow2(u & 15)
    case 3 => InvSboxRow3(u & 15)
    case 4 => InvSboxRow4(u & 15)
    case 5 => InvSboxRow5(u & 15)
    case 6 => InvSboxRow6(u & 15)
    case 7 => InvSboxRow7(u & 15)
    case 8 => InvSboxRow8(u & 15)
    case 9 => InvSboxRow9(u & 15)
    case 10 => InvSboxRowA(u & 15)
    case 11 => InvSboxRowB(u & 15)
    case 12 => InvSboxRowC(u & 15)
    case 13 => InvSboxRowD(u & 15)
    case 14 => InvSboxRowE(u & 15)
    case _ => InvSboxRowF(u & 15)
  }

  function LogRow0(low: bv8): bv8 {
    match low
    case 0 => 0xFF case 1 => 0x00 case 2 => 0x19 case 3 => 0x01 case 4 => 0x32 case 5 => 0x02
    case 6 => 0x1A case 7 => 0xC6 case 8 => 0x4B case 9 => 0xC7 case 10 => 0x1B case 11 => 0x68
    case 12 => 0x33 case 13 => 0xEE case 14 => 0xDF case _ => 0x03
  }

  function LogRow1(low: bv8): bv8 {
    match low
    case 0 => 0x64 case 1 => 0x04 case 2 => 0xE0 case 3 => 0x0E case 4 => 0x34 case 5 => 0x8D
    case 6 => 0x81 case 7 => 0xEF case 8 => 0x4C case 9 => 0x71 case 10 => 0x08 case 11 => 0xC8
    case 12 => 0xF8 case 13 => 0x69 case 14 => 0x1C case _ => 0xC1
  }

  function LogRow2(low: bv8): bv8 {
    match low
    case 0 => 0x7D case 1 => 0xC2 case 2 => 0x1D case 3 => 0xB5 case 4 => 0xF9 case 5 => 0xB9
    case 6 => 0x27 case 7 => 0x6A case 8 => 0x4D case 9 => 0xE4 case 10 => 0xA6 case 11 => 0x72
    case 12 => 0x9A case 13 => 0xC9 case 14 => 0x09 case _ => 0x78
  }

  function LogRow3(low: bv8): bv8 {
    match low
    case 0 => 0x65 case 1 => 0x2F case 2 => 0x8A case 3 => 0x05 case 4 => 0x21 case 5 => 0x0F
    case 6 => 0xE1 case 7 => 0x24 case 8 => 0x12 case 9 => 0xF0 case 10 => 0x82 case 11 => 0x45
    case 12 => 0x35 case 13 => 0x93 case 14 => 0xDA case _ => 0x8E
  }

  function LogRow4(low: bv8): bv8 {
    match low
    case 0 => 0x96 case 1 => 0x8F case 2 => 0xDB case 3 => 0xBD case 4 => 0x36 case 5 => 0xD0
    case 6 => 0xCE case 7 => 0x94 case 8 => 0x13 case 9 => 0x5C case 10 => 0xD2 case 11 => 0xF1
    case 12 => 0x40 case 13 => 0x46 case 14 => 0x83 case _ => 0x38
  }

  function LogRow5(low: bv8): bv8 {
    match low
    case 0 => 0x66 case 1 => 0xDD case 2 => 0xFD case 3 => 0x30 case 4 => 0xBF case 5 => 0x06
    case 6 => 0x8B case 7 => 0x62 case 8 => 0xB3 case 9 => 0x25 case 10 => 0xE2 case 11 => 0x98
    case 12 => 0x22 case 13 => 0x88 case 14 => 0x91 case _ => 0x10
  }

  function LogRow6(low: bv8): bv8 {
    match low
    case 0 => 0x7E case 1 => 0x6E case 2 => 0x48 case 3 => 0xC3 case 4 => 0xA3 case 5 => 0xB6
    case 6 => 0x1E case 7 => 0x42 case 8 => 0x3A case 9 => 0x6B case 10 => 0x28 case 11 => 0x54
    case 12 => 0xFA case 13 => 0x85 case 14 => 0x3D case _ => 0xBA
  }

  function LogRow7(low: bv8): bv8 {
    match low
    case 0 => 0x2B case 1 => 0x79 case 2 => 0x0A case 3 => 0x15 case 4 => 0x9B case 5 => 0x9F
    case 6 => 0x5E case 7 => 0xCA case 8 => 0x4E case 9 => 0xD4 case 10 => 0xAC case 11 => 0xE5
    case 12 => 0xF3 case 13 => 0x73 case 14 => 0xA7 case _ => 0x57
  }

  function LogRow8(low: bv8): bv8 {
    match low
    case 0 => 0xAF case 1 => 0x58 case 2 => 0xA8 case 3 => 0x50 case 4 => 0xF4 case 5 => 0xEA
    case 6 => 0xD6 case 7 => 0x74 case 8 => 0x4F case 9 => 0xAE case 10 => 0xE9 case 11 => 0xD5
    case 12 => 0xE7 case 13 => 0xE6 case 14 => 0xAD case _ => 0xE8
  }

  function LogRow9(low: bv8): bv8 {
    match low
    case 0 => 0x2C case 1 => 0xD7 case 2 => 0x75 case 3 => 0x7A case 4 => 0xEB case 5 => 0x16
    case 6 => 0x0B case 7 => 0xF5 case 8 => 0x59 case 9 => 0xCB case 10 => 0x5F case 11 => 0xB0
    case 12 => 0x9C case 13 => 0xA9 case 14 => 0x51 case _ => 0xA0
  }

  function LogRowA(low: bv8): bv8 {
    match low
    case 0 => 0x7F case 1 => 0x0C case 2 => 0xF6 case 3 => 0x6F case 4 => 0x17 case 5 => 0xC4
    case 6 => 0x49 case 7 => 0xEC case 8 => 0xD8 case 9 => 0x43 case 10 => 0x1F case 11 => 0x2D
    case 12 => 0xA4 case 13 => 0x76 case 14 => 0x7B case _ => 0xB7
  }

  function LogRowB(low: bv8): bv8 {
    match low
    case 0 => 0xCC case 1 => 0xBB case 2 => 0x3E case 3 => 0x5A case 4 => 0xFB case 5 => 0x60
    case 6 => 0xB1 case 7 => 0x86 case 8 => 0x3B case 9 => 0x52 case 10 => 0xA1 case 11 => 0x6C
    case 12 => 0xAA case 13 => 0x55 case 14 => 0x29 case _ => 0x9D
  }

  function LogRowC(low: bv8): bv8 {
    match low
    case 0 => 0x97 case 1 => 0xB2 case 2 => 0x87 case 3 => 0x90 case 4 => 0x61 case 5 => 0xBE
    case 6 => 0xDC case 7 => 0xFC case 8 => 0xBC case 9 => 0x95 case 10 => 0xCF case 11 => 0xCD
    case 12 => 0x37 case 13 => 0x3F case 14 => 0x5B case _ => 0xD1
  }

  function LogRowD(low: bv8): bv8 {
    match low
    case 0 => 0x53 case 1 => 0x39 case 2 => 0x84 case 3 => 0x3C case 4 => 0x41 case 5 => 0xA2
    case 6 => 0x6D case 7 => 0x47 case 8 => 0x14 case 9 => 0x2A case 10 => 0x9E case 11 => 0x5D
    case 12 => 0x56 case 13 => 0xF2 case 14 => 0xD3 case _ => 0xAB
  }

  function LogRowE(low: bv8): bv8 {
    match low
    case 0 => 0x44 case 1 => 0x11 case 2 => 0x92 case 3 => 0xD9 case 4 => 0x23 case 5 => 0x20
    case 6 => 0x2E case 7 => 0x89 case 8 => 0xB4 case 9 => 0x7C case 10 => 0xB8 case 11 => 0x26
    case 12 => 0x77 case 13 => 0x99 case 14 => 0xE3 case _ => 0xA5
  }

  function LogRowF(low: bv8): bv8 {
    match low
    case 0 => 0x67 case 1 => 0x4A case 2 => 0xED case 3 => 0xDE case 4 => 0xC5 case 5 => 0x31
    case 6 => 0xFE case 7 => 0x18 case 8 => 0x0D case 9 => 0x63 case 10 => 0x8C case 11 => 0x80
    case 12 => 0xC0 case 13 => 0xF7 case 14 => 0x70 case _ => 0x07
  }

  /** The exponents of 3 that give an element; the entry of zero is not used. */
  function Log(u: bv8): bv8 {
    match u >> 4
    case 0 => LogRow0(u & 15)
    case 1 => LogRow1(u & 15)
    case 2 => LogRow2(u & 15)
    case 3 => LogRow3(u & 15)
    case 4 => LogRow4(u & 15)
    case 5 => LogRow5(u & 15)
    case 6 => LogRow6(u & 15)
    case 7 => LogRow7(u & 15)
    case 8 => LogRow8(u & 15)
    case 9 => LogRow9(u & 15)
    case 10 => LogRowA(u & 15)
    case 11 => LogRowB(u & 15)
    case 12 => LogRowC(u & 15)
    case 13 => LogRowD(u & 15)
    case 14 => LogRowE(u & 15)
    case _ => LogRowF(u & 15)
  }

  function PowerRow0(low: bv8): bv8 {
    match low
    case 0 => 0x01 case 1 => 0x03 case 2 => 0x05 case 3 => 0x0F case 4 => 0x11 case 5 => 0x33
    case 6 => 0x55 case 7 => 0xFF case 8 => 0x1A case 9 => 0x2E case 10 => 0x72 case 11 => 0x96
    case 12 => 0xA1 case 13 => 0xF8 case 14 => 0x13 case _ => 0x35
  }

  function PowerRow1(low: bv8): bv8 {
    match low
    case 0 => 0x5F case 1 => 0xE1 case 2 => 0x38 case 3 => 0x48 case 4 => 0xD8 case 5 => 0x73
    case 6 => 0x95 case 7 => 0xA4 case 8 => 0xF7 case 9 => 0x02 case 10 => 0x06 case 11 => 0x0A
    case 12 => 0x1E case 13 => 0x22 case 14 => 0x66 case _ => 0xAA
  }

  function PowerRow2(low: bv8): bv8 {
    match low
    case 0 => 0xE5 case 1 => 0x34 case 2 => 0x5C case 3 => 0xE4 case 4 => 0x37 case 5 => 0x59
    case 6 => 0xEB case 7 => 0x26 case 8 => 0x6A case 9 => 0xBE case 10 => 0xD9 case 11 => 0x70
    case 12 => 0x90 case 13 => 0xAB case 14 => 0xE6 case _ => 0x31
  }

  function PowerRow3(low: bv8): bv8 {
    match low
    case 0 => 0x53 case 1 => 0xF5 case 2 => 0x04 case 3 => 0x0C case 4 => 0x14 case 5 => 0x3C
    case 6 => 0x44 case 7 => 0xCC case 8 => 0x4F case 9 => 0xD1 case 10 => 0x68 case 11 => 0xB8
    case 12 => 0xD3 case 13 => 0x6E case 14 => 0xB2 case _ => 0xCD
  }

  function PowerRow4(low: bv8): bv8 {
    match low
    case 0 => 0x4C case 1 => 0xD4 case 2 => 0x67 case 3 => 0xA9 case 4 => 0xE0 case 5 => 0x3B
    case 6 => 0x4D case 7 => 0xD7 case 8 => 0x62 case 9 => 0xA6 case 10 => 0xF1 case 11 => 0x08
    case 12 => 0x18 case 13 => 0x28 case 14 => 0x78 case _ => 0x88
  }

  function PowerRow5(low: bv8): bv8 {
    match low
    case 0 => 0x83 case 1 => 0x9E case 2 => 0xB9 case 3 => 0xD0 case 4 => 0x6B case 5 => 0xBD
    case 6 => 0xDC case 7 => 0x7F case 8 => 0x81 case 9 => 0x98 case 10 => 0xB3 case 11 => 0xCE
    case 12 => 0x49 case 13 => 0xDB case 14 => 0x76 case _ => 0x9A
  }

  function PowerRow6(low: bv8): bv8 {
    match low
    case 0 => 0xB5 case 1 => 0xC4 case 2 => 0x57 case 3 => 0xF9 case 4 => 0x10 case 5 => 0x30
    case 6 => 0x50 case 7 => 0xF0 case 8 => 0x0B case 9 => 0x1D case 10 => 0x27 case 11 => 0x69
    case 12 => 0xBB case 13 => 0xD6 case 14 => 0x61 case _ => 0xA3
  }

  function PowerRow7(low: bv8): bv8 {
    match low
    case 0 => 0xFE case 1 => 0x19 case 2 => 0x2B case 3 => 0x7D case 4 => 0x87 case 5 => 0x92
    case 6 => 0xAD case 7 => 0xEC case 8 => 0x2F case 9 => 0x71 case 10 => 0x93 case 11 => 0xAE
    case 12 => 0xE9 case 13 => 0x20 case 14 => 0x60 case _ => 0xA0
  }

  function PowerRow8(low: bv8): bv8 {
    match low
    case 0 => 0xFB case 1 => 0x16 case 2 => 0x3A case 3 => 0x4E case 4 => 0xD2 case 5 => 0x6D
    case 6 => 0xB7 case 7 => 0xC2 case 8 => 0x5D case 9 => 0xE7 case 10 => 0x32 case 11 => 0x56
    case 12 => 0xFA case 13 => 0x15 case 14 => 0x3F case _ => 0x41
  }

  function PowerRow9(low: bv8): bv8 {
    match low
    case 0 => 0xC3 case 1 => 0x5E case 2 => 0xE2 case 3 => 0x3D case 4 => 0x47 case 5 => 0xC9
    case 6 => 0x40 case 7 => 0xC0 case 8 => 0x5B case 9 => 0xED case 10 => 0x2C case 11 => 0x74
    case 12 => 0x9C case 13 => 0xBF case 14 => 0xDA case _ => 0x75
  }

  function PowerRowA(low: bv8): bv8 {
    match low
    case 0 => 0x9F case 1 => 0xBA case 2 => 0xD5 case 3 => 0x64 case 4 => 0xAC case 5 => 0xEF
    case 6 => 0x2A case 7 => 0x7E case 8 => 0x82 case 9 => 0x9D case 10 => 0xBC case 11 => 0xDF
    case 12 => 0x7A case 13 => 0x8E case 14 => 0x89 case _ => 0x80
  }

  function PowerRowB(low: bv8): bv8 {
    match low
    case 0 => 0x9B case 1 => 0xB6 case 2 => 0xC1 case 3 => 0x58 case 4 => 0xE8 case 5 => 0x23
    case 6 => 0x65 case 7 => 0xAF case 8 => 0xEA case 9 => 0x25 case 10 => 0x6F case 11 => 0xB1
    case 12 => 0xC8 case 13 => 0x43 case 14 => 0xC5 case _ => 0x54
  }

  function PowerRowC(low: bv8): bv8 {
    match low
    case 0 => 0xFC case 1 => 0x1F case 2 => 0x21 case 3 => 0x63 case 4 => 0xA5 case 5 => 0xF4
    case 6 => 0x07 case 7 => 0x09 case 8 => 0x1B case 9 => 0x2D case 10 => 0x77 case 11 => 0x99
    case 12 => 0xB0 case 13 => 0xCB case 14 => 0x46 case _ => 0xCA
  }

  function PowerRowD(low: bv8): bv8 {
    match low
    case 0 => 0x45 case 1 => 0xCF case 2 => 0x4A case 3 => 0xDE case 4 => 0x79 case 5 => 0x8B
    case 6 => 0x86 case 7 => 0x91 case 8 => 0xA8 case 9 => 0xE3 case 10 => 0x3E case 11 => 0x42
    case 12 => 0xC6 case 13 => 0x51 case 14 => 0xF3 case _ => 0x0E
  }

  function PowerRowE(low: bv8): bv8 {
    match low
    case 0 => 0x12 case 1 => 0x36 case 2 => 0x5A case 3 => 0xEE case 4 => 0x29 case 5 => 0x7B
    case 6 => 0x8D case 7 => 0x8C case 8 => 0x8F case 9 => 0x8A case 10 => 0x85 case 11 => 0x94
    case 12 => 0xA7 case 13 => 0xF2 case 14 => 0x0D case _ => 0x17
  }

  function PowerRowF(low: bv8): bv8 {
    match low
    case 0 => 0x39 case 1 => 0x4B case 2 => 0xDD case 3 => 0x7C case 4 => 0x84 case 5 => 0x97
    case 6 => 0xA2 case 7 => 0xFD case 8 => 0x1C case 9 => 0x24 case 10 => 0x6C case 11 => 0xB4
    case 12 => 0xC7 case 13 => 0x52 case 14 => 0xF6 case _ => 0x01
  }

  /** The powers of 3. */
  function Power(u: bv8): bv8 {
    match u >> 4
    case 0 => PowerRow0(u & 15)
    case 1 => PowerRow1(u & 15)
    case 2 => PowerRow2(u & 15)
    case 3 => PowerRow3(u & 15)
    case 4 => PowerRow4(u & 15)
    case 5 => PowerRow5(u & 15)
    case 6 => PowerRow6(u & 15)
    case 7 => PowerRow7(u & 15)
    case 8 => PowerRow8(u & 15)
    case 9 => PowerRow9(u & 15)
    case 10 => PowerRowA(u & 15)
    case 11 => PowerRowB(u & 15)
    case 12 => PowerRowC(u & 15)
    case 13 => PowerRowD(u & 15)
    case 14 => PowerRowE(u & 15)
    case _ => PowerRowF(u & 15)
  }

  /** Twice an element of the field, reduced by x^8 + x^4 + x^3 + x + 1. */
  function Double(v: bv8): bv8 {
    (v << 1) ^ ((v >> 7) * 0x1B)
  }

  function Triple(v: bv8): bv8 {
    Double(v) ^ v
  }

  lemma SboxUndone0(u: bv8)
    requires u >> 4 == 0
    ensures InvSbox(Sbox(u)) == u
  {
  }

  lemma SboxUndone1(u: bv8)
    requires u >> 4 == 1
    ensures InvSbox(Sbox(u)) == u
  {
  }

  lemma SboxUndone2(u: bv8)
    requires u >> 4 == 2
    ensures InvSbox(Sbox(u)) == u
  {
  }

  lemma SboxUndone3(u: bv8)
    requires u >> 4 == 3
    ensures InvSbox(Sbox(u)) == u
  {
  }

  lemma SboxUndone4(u: bv8)
    requires u >> 4 == 4
    ensures InvSbox(Sbox(u)) == u
  {
  }

  lemma SboxUndone5(u: bv8)
    requires u >> 4 == 5
    ensures InvSbox(Sbox(u)) == u
  {
  }

  lemma SboxUndone6(u: bv8)
    requires u >> 4 == 6
    ensures InvSbox(Sbox(u)) == u
  {
  }

  lemma SboxUndone7(u: bv8)
    requires u >> 4 == 7
    ensures InvSbox(Sbox(u)) == u
  {
  }

  lemma SboxUndone8(u: bv8)
    requires u >> 4 == 8
    ensures InvSbox(Sbox(u)) == u
  {
  }

  lemma SboxUndone9(u: bv8)
    requires u >> 4 == 9
    ensures InvSbox(Sbox(u)) == u
  {
  }

  lemma SboxUndoneA(u: bv8)
    requires u >> 4 == 10
    ensures InvSbox(Sbox(u)) == u
  {
  }

  lemma SboxUndoneB(u: bv8)
    requires u >> 4 == 11
    ensures InvSbox(Sbox(u)) == u
  {
  }

  lemma SboxUndoneC(u: bv8)
    requires u >> 4 == 12
    ensures InvSbox(Sbox(u)) == u
  {
  }

  lemma SboxUndoneD(u: bv8)
    requires u >> 4 == 13
    ensures InvSbox(Sbox(u)) == u
  {
  }

  lemma SboxUndoneE(u: bv8)
    requires u >> 4 == 14
    ensures InvSbox(Sbox(u)) == u
  {
  }

  lemma SboxUndoneF(u: bv8)
    requires u >> 4 == 15
    ensures InvSbox(Sbox(u)) == u
  {
  }

  /** The second substitution undoes the first. */
  lemma InvSboxUndoesSbox(u: bv8)
    ensures InvSbox(Sbox(u)) == u
  {
    hide Sbox, InvSbox;
    match u >> 4
    case 0 => SboxUndone0(u);
    case 1 => SboxUndone1(u);
    case 2 => SboxUndone2(u);
    case 3 => SboxUndone3(u);
    case 4 => SboxUndone4(u);
    case 5 => SboxUndone5(u);
    case 6 => SboxUndone6(u);
    case 7 => SboxUndone7(u);
    case 8 => SboxUndone8(u);
    case 9 => SboxUndone9(u);
    case 10 => SboxUndoneA(u);
    case 11 => SboxUndoneB(u);
    case 12 => SboxUndoneC(u);
    case 13 => SboxUndoneD(u);
    case 14 => SboxUndoneE(u);
    case _ => SboxUndoneF(u);
  }

  lemma LogIs0(u: bv8)
    requires u >> 4 == 0 && u != 0
    ensures Log(u) != 255 && Power(Log(u)) == u
  {
  }

  lemma LogIs1(u: bv8)
    requires u >> 4 == 1
    ensures Log(u) != 255 && Power(Log(u)) == u
  {
  }

  lemma LogIs2(u: bv8)
    requires u >> 4 == 2
    ensures Log(u) != 255 && Power(Log(u)) == u
  {
  }

  lemma LogIs3(u: bv8)
    requires u >> 4 == 3
    ensures Log(u) != 255 && Power(Log(u)) == u
  {
  }

  lemma LogIs4(u: bv8)
    requires u >> 4 == 4
    ensures Log(u) != 255 && Power(Log(u)) == u
  {
  }

  lemma LogIs5(u: bv8)
    requires u >> 4 == 5
    ensures Log(u) != 255 && Power(Log(u)) == u
  {
  }

  lemma LogIs6(u: bv8)
    requires u >> 4 == 6
    ensures Log(u) != 255 && Power(Log(u)) == u
  {
  }

  lemma LogIs7(u: bv8)
    requires u >> 4 == 7
    ensures Log(u) != 255 && Power(Log(u)) == u
  {
  }

  lemma LogIs8(u: bv8)
    requires u >> 4 == 8
    ensures Log(u) != 255 && Power(Log(u)) == u
  {
  }

  lemma LogIs9(u: bv8)
    requires u >> 4 == 9
    ensures Log(u) != 255 && Power(Log(u)) == u
  {
  }

  lemma LogIsA(u: bv8)
    requires u >> 4 == 10
    ensures Log(u) != 255 && Power(Log(u)) == u
  {
  }

  lemma LogIsB(u: bv8)
    requires u >> 4 == 11
    ensures Log(u) != 255 && Power(Log(u)) == u
  {
  }

  lemma LogIsC(u: bv8)
    requires u >> 4 == 12
    ensures Log(u) != 255 && Power(Log(u)) == u
  {
  }

  lemma LogIsD(u: bv8)
    requires u >> 4 == 13
    ensures Log(u) != 255 && Power(Log(u)) == u
  {
  }

  lemma LogIsE(u: bv8)
    requires u >> 4 == 14
    ensures Log(u) != 255 && Power(Log(u)) == u
  {
  }

  lemma LogIsF(u: bv8)
    requires u >> 4 == 15
    ensures Log(u) != 255 && Power(Log(u)) == u
  {
  }

  /** Every element but zero is a power of 3. */
  lemma PowerOfLog(u: bv8)
    requires u != 0
    ensures Log(u) != 255 && Power(Log(u)) == u
  {
    hide Log, Power;
    match u >> 4
    case 0 => LogIs0(u);
    case 1 => LogIs1(u);
    case 2 => LogIs2(u);
    case 3 => LogIs3(u);
    case 4 => LogIs4(u);
    case 5 => LogIs5(u);
    case 6 => LogIs6(u);
    case 7 => LogIs7(u);
    case 8 => LogIs8(u);
    case 9 => LogIs9(u);
    case 10 => LogIsA(u);
    case 11 => LogIsB(u);
    case 12 => LogIsC(u);
    case 13 => LogIsD(u);
    case 14 => LogIsE(u);
    case _ => LogIsF(u);
  }

  lemma PowerNext0(u: bv8)
    requires u >> 4 == 0
    ensures Power(u + 1) == Triple(Power(u))
  {
    if u & 8 == 0 {
      assert u <= 7;
    } else {
      assert 8 <= u <= 15;
    }
  }

  lemma PowerNext1(u: bv8)
    requires u >> 4 == 1
    ensures Power(u + 1) == Triple(Power(u))
  {
  }

  lemma PowerNext2(u: bv8)
    requires u >> 4 == 2
    ensures Power(u + 1) == Triple(Power(u))
  {
  }

  lemma PowerNext3(u: bv8)
    requires u >> 4 == 3
    ensures Power(u + 1) == Triple(Power(u))
  {
  }

  lemma PowerNext4(u: bv8)
    requires u >> 4 == 4
    ensures Power(u + 1) == Triple(Power(u))
  {
  }

  lemma PowerNext5(u: bv8)
    requires u >> 4 == 5
    ensures Power(u + 1) == Triple(Power(u))
  {
  }

  lemma PowerNext6(u: bv8)
    requires u >> 4 == 6
    ensures Power(u + 1) == Triple(Power(u))
  {
  }

  lemma PowerNext7(u: bv8)
    requires u >> 4 == 7
    ensures Power(u + 1) == Triple(Power(u))
  {
  }

  lemma PowerNext8(u: bv8)
    requires u >> 4 == 8
    ensures Power(u + 1) == Triple(Power(u))
  {
  }

  lemma PowerNext9(u: bv8)
    requires u >> 4 == 9
    ensures Power(u + 1) == Triple(Power(u))
  {
  }

  lemma PowerNextA(u: bv8)
    requires u >> 4 == 10
    ensures Power(u + 1) == Triple(Power(u))
  {
  }

  lemma PowerNextB(u: bv8)
    requires u >> 4 == 11
    ensures Power(u + 1) == Triple(Power(u))
  {
  }

  lemma PowerNextC(u: bv8)
    requires u >> 4 == 12
    ensures Power(u + 1) == Triple(Power(u))
  {
  }

  lemma PowerNextD(u: bv8)
    requires u >> 4 == 13
    ensures Power(u + 1) == Triple(Power(u))
  {
  }

  lemma PowerNextE(u: bv8)
    requires u >> 4 == 14
    ensures Power(u + 1) == Triple(Power(u))
  {
  }

  lemma PowerNextF(u: bv8)
    requires u >> 4 == 15 && u != 255
    ensures Power(u + 1) == Triple(Power(u))
  {
  }

  /** Each power is three times the one before. */
  lemma PowerStep(u: bv8)
    requires u != 255
    ensures Power(u + 1) == Triple(Power(u))
  {
    hide Power, Triple;
    match u >> 4
    case 0 => PowerNext0(u);
    case 1 => PowerNext1(u);
    case 2 => PowerNext2(u);
    case 3 => PowerNext3(u);
    case 4 => PowerNext4(u);
    case 5 => PowerNext5(u);
    case 6 => PowerNext6(u);
    case 7 => PowerNext7(u);
    case 8 => PowerNext8(u);
    case 9 => PowerNext9(u);
    case 10 => PowerNextA(u);
    case 11 => PowerNextB(u);
    case 12 => PowerNextC(u);
    case 13 => PowerNextD(u);
    case 14 => PowerNextE(u);
    case _ => PowerNextF(u);
  }

  /** The affine map of section 5.1.1 of FIPS 197: each bit with four others, and a constant. */
  function Affine(v: bv8): bv8 {
    v ^ Turned(v, 1) ^ Turned(v, 2) ^ Turned(v, 3) ^ Turned(v, 4) ^ 0x63
  }

  function Turned(v: bv8, k: nat): bv8
    requires 0 < k < 8
  {
    (v << k) | (v >> (8 - k))
  }

  function Unaffine(v: bv8): bv8 {
    (v << 1) ^ (v >> 7) ^ (v << 3) ^ (v >> 5) ^ (v << 6) ^ (v >> 2) ^ 0x05
  }

  lemma AffineUnaffine(v: bv8)
    ensures Affine(Unaffine(v)) == v
  {
  }

  lemma SboxLog0(u: bv8)
    requires u >> 4 == 0 && u > 1
    ensures Unaffine(Sbox(u)) != 0 && Log(Unaffine(Sbox(u))) == 255 - Log(u)
  {
  }

  lemma SboxLog1(u: bv8)
    requires u >> 4 == 1
    ensures Unaffine(Sbox(u)) != 0 && Log(Unaffine(Sbox(u))) == 255 - Log(u)
  {
  }

  lemma SboxLog2(u: bv8)
    requires u >> 4 == 2
    ensures Unaffine(Sbox(u)) != 0 && Log(Unaffine(Sbox(u))) == 255 - Log(u)
  {
  }

  lemma SboxLog3(u: bv8)
    requires u >> 4 == 3
    ensures Unaffine(Sbox(u)) != 0 && Log(Unaffine(Sbox(u))) == 255 - Log(u)
  {
  }

  lemma SboxLog4(u: bv8)
    requires u >> 4 == 4
    ensures Unaffine(Sbox(u)) != 0 && Log(Unaffine(Sbox(u))) == 255 - Log(u)
  {
  }

  lemma SboxLog5(u: bv8)
    requires u >> 4 == 5
    ensures Unaffine(Sbox(u)) != 0 && Log(Unaffine(Sbox(u))) == 255 - Log(u)
  {
  }

  lemma SboxLog6(u: bv8)
    requires u >> 4 == 6
    ensures Unaffine(Sbox(u)) != 0 && Log(Unaffine(Sbox(u))) == 255 - Log(u)
  {
  }

  lemma SboxLog7(u: bv8)
    requires u >> 4 == 7
    ensures Unaffine(Sbox(u)) != 0 && Log(Unaffine(Sbox(u))) == 255 - Log(u)
  {
  }

  lemma SboxLog8(u: bv8)
    requires u >> 4 == 8
    ensures Unaffine(Sbox(u)) != 0 && Log(Unaffine(Sbox(u))) == 255 - Log(u)
  {
  }

  lemma SboxLog9(u: bv8)
    requires u >> 4 == 9
    ensures Unaffine(Sbox(u)) != 0 && Log(Unaffine(Sbox(u))) == 255 - Log(u)
  {
  }

  lemma SboxLogA(u: bv8)
    requires u >> 4 == 10
    ensures Unaffine(Sbox(u)) != 0 && Log(Unaffine(Sbox(u))) == 255 - Log(u)
  {
  }

  lemma SboxLogB(u: bv8)
    requires u >> 4 == 11
    ensures Unaffine(Sbox(u)) != 0 && Log(Unaffine(Sbox(u))) == 255 - Log(u)
  {
  }

  lemma SboxLogC(u: bv8)
    requires u >> 4 == 12
    ensures Unaffine(Sbox(u)) != 0 && Log(Unaffine(Sbox(u))) == 255 - Log(u)
  {
  }

  lemma SboxLogD(u: bv8)
    requires u >> 4 == 13
    ensures Unaffine(Sbox(u)) != 0 && Log(Unaffine(Sbox(u))) == 255 - Log(u)
  {
  }

  lemma SboxLogE(u: bv8)
    requires u >> 4 == 14
    ensures Unaffine(Sbox(u)) != 0 && Log(Unaffine(Sbox(u))) == 255 - Log(u)
  {
  }

  lemma SboxLogF(u: bv8)
    requires u >> 4 == 15
    ensures Unaffine(Sbox(u)) != 0 && Log(Unaffine(Sbox(u))) == 255 - Log(u)
  {
  }

  /** Behind the affine map the substitution takes the exponent away from 255. */
  lemma SboxLogs(u: bv8)
    requires u > 1
    ensures Unaffine(Sbox(u)) != 0 && Log(Unaffine(Sbox(u))) == 255 - Log(u)
  {
    hide Sbox, Log, Unaffine;
    match u >> 4
    case 0 => SboxLog0(u);
    case 1 => SboxLog1(u);
    case 2 => SboxLog2(u);
    case 3 => SboxLog3(u);
    case 4 => SboxLog4(u);
    case 5 => SboxLog5(u);
    case 6 => SboxLog6(u);
    case 7 => SboxLog7(u);
    case 8 => SboxLog8(u);
    case 9 => SboxLog9(u);
    case 10 => SboxLogA(u);
    case 11 => SboxLogB(u);
    case 12 => SboxLogC(u);
    case 13 => SboxLogD(u);
    case 14 => SboxLogE(u);
    case _ => SboxLogF(u);
  }

  lemma SboxEnds()
    ensures Unaffine(Sbox(0)) == 0 && Unaffine(Sbox(1)) == 1 && Log(1) == 0
  {
  }
}
