/** Multiplication in GF(2^8) as section 4.2 of FIPS 197 has it, the lookup tables of the key scramble,
    and what they have to do with each other. */
module Ec2bTables {
  import opened Octets

  // ---------- the tables ----------

  function G2(x: octet): octet {
    var row, a, b, c, d := x & 0xF0, x & 8 == 0, x & 4 == 0, x & 2 == 0, x & 1 == 0;
    if row == 0x00 then
      if a then
        if b then (if c then (if d then 0x00 else 0x02) else (if d then 0x04 else 0x06))
        else (if c then (if d then 0x08 else 0x0A) else (if d then 0x0C else 0x0E))
      else if b then (if c then (if d then 0x10 else 0x12) else (if d then 0x14 else 0x16))
      else (if c then (if d then 0x18 else 0x1A) else (if d then 0x1C else 0x1E))
    else if row == 0x10 then
      if a then
        if b then (if c then (if d then 0x20 else 0x22) else (if d then 0x24 else 0x26))
        else (if c then (if d then 0x28 else 0x2A) else (if d then 0x2C else 0x2E))
      else if b then (if c then (if d then 0x30 else 0x32) else (if d then 0x34 else 0x36))
      else (if c then (if d then 0x38 else 0x3A) else (if d then 0x3C else 0x3E))
    else if row == 0x20 then
      if a then
        if b then (if c then (if d then 0x40 else 0x42) else (if d then 0x44 else 0x46))
        else (if c then (if d then 0x48 else 0x4A) else (if d then 0x4C else 0x4E))
      else if b then (if c then (if d then 0x50 else 0x52) else (if d then 0x54 else 0x56))
      else (if c then (if d then 0x58 else 0x5A) else (if d then 0x5C else 0x5E))
    else if row == 0x30 then
      if a then
        if b then (if c then (if d then 0x60 else 0x62) else (if d then 0x64 else 0x66))
        else (if c then (if d then 0x68 else 0x6A) else (if d then 0x6C else 0x6E))
      else if b then (if c then (if d then 0x70 else 0x72) else (if d then 0x74 else 0x76))
      else (if c then (if d then 0x78 else 0x7A) else (if d then 0x7C else 0x7E))
    else if row == 0x40 then
      if a then
        if b then (if c then (if d then 0x80 else 0x82) else (if d then 0x84 else 0x86))
        else (if c then (if d then 0x88 else 0x8A) else (if d then 0x8C else 0x8E))
      else if b then (if c then (if d then 0x90 else 0x92) else (if d then 0x94 else 0x96))
      else (if c then (if d then 0x98 else 0x9A) else (if d then 0x9C else 0x9E))
    else if row == 0x50 then
      if a then
        if b then (if c then (if d then 0xA0 else 0xA2) else (if d then 0xA4 else 0xA6))
        else (if c then (if d then 0xA8 else 0xAA) else (if d then 0xAC else 0xAE))
      else if b then (if c then (if d then 0xB0 else 0xB2) else (if d then 0xB4 else 0xB6))
      else (if c then (if d then 0xB8 else 0xBA) else (if d then 0xBC else 0xBE))
    else if row == 0x60 then
      if a then
        if b then (if c then (if d then 0xC0 else 0xC2) else (if d then 0xC4 else 0xC6))
        else (if c then (if d then 0xC8 else 0xCA) else (if d then 0xCC else 0xCE))
      else if b then (if c then (if d then 0xD0 else 0xD2) else (if d then 0xD4 else 0xD6))
      else (if c then (if d then 0xD8 else 0xDA) else (if d then 0xDC else 0xDE))
    else if row == 0x70 then
      if a then
        if b then (if c then (if d then 0xE0 else 0xE2) else (if d then 0xE4 else 0xE6))
        else (if c then (if d then 0xE8 else 0xEA) else (if d then 0xEC else 0xEE))
      else if b then (if c then (if d then 0xF0 else 0xF2) else (if d then 0xF4 else 0xF6))
      else (if c then (if d then 0xF8 else 0xFA) else (if d then 0xFC else 0xFE))
    else if row == 0x80 then
      if a then
        if b then (if c then (if d then 0x1B else 0x19) else (if d then 0x1F else 0x1D))
        else (if c then (if d then 0x13 else 0x11) else (if d then 0x17 else 0x15))
      else if b then (if c then (if d then 0x0B else 0x09) else (if d then 0x0F else 0x0D))
      else (if c then (if d then 0x03 else 0x01) else (if d then 0x07 else 0x05))
    else if row == 0x90 then
      if a then
        if b then (if c then (if d then 0x3B else 0x39) else (if d then 0x3F else 0x3D))
        else (if c then (if d then 0x33 else 0x31) else (if d then 0x37 else 0x35))
      else if b then (if c then (if d then 0x2B else 0x29) else (if d then 0x2F else 0x2D))
      else (if c then (if d then 0x23 else 0x21) else (if d then 0x27 else 0x25))
    else if row == 0xA0 then
      if a then
        if b then (if c then (if d then 0x5B else 0x59) else (if d then 0x5F else 0x5D))
        else (if c then (if d then 0x53 else 0x51) else (if d then 0x57 else 0x55))
      else if b then (if c then (if d then 0x4B else 0x49) else (if d then 0x4F else 0x4D))
      else (if c then (if d then 0x43 else 0x41) else (if d then 0x47 else 0x45))
    else if row == 0xB0 then
      if a then
        if b then (if c then (if d then 0x7B else 0x79) else (if d then 0x7F else 0x7D))
        else (if c then (if d then 0x73 else 0x71) else (if d then 0x77 else 0x75))
      else if b then (if c then (if d then 0x6B else 0x69) else (if d then 0x6F else 0x6D))
      else (if c then (if d then 0x63 else 0x61) else (if d then 0x67 else 0x65))
    else if row == 0xC0 then
      if a then
        if b then (if c then (if d then 0x9B else 0x99) else (if d then 0x9F else 0x9D))
        else (if c then (if d then 0x93 else 0x91) else (if d then 0x97 else 0x95))
      else if b then (if c then (if d then 0x8B else 0x89) else (if d then 0x8F else 0x8D))
      else (if c then (if d then 0x83 else 0x81) else (if d then 0x87 else 0x85))
    else if row == 0xD0 then
      if a then
        if b then (if c then (if d then 0xBB else 0xB9) else (if d then 0xBF else 0xBD))
        else (if c then (if d then 0xB3 else 0xB1) else (if d then 0xB7 else 0xB5))
      else if b then (if c then (if d then 0xAB else 0xA9) else (if d then 0xAF else 0xAD))
      else (if c then (if d then 0xA3 else 0xA1) else (if d then 0xA7 else 0xA5))
    else if row == 0xE0 then
      if a then
        if b then (if c then (if d then 0xDB else 0xD9) else (if d then 0xDF else 0xDD))
        else (if c then (if d then 0xD3 else 0xD1) else (if d then 0xD7 else 0xD5))
      else if b then (if c then (if d then 0xCB else 0xC9) else (if d then 0xCF else 0xCD))
      else (if c then (if d then 0xC3 else 0xC1) else (if d then 0xC7 else 0xC5))
    else
      if a then
        if b then (if c then (if d then 0xFB else 0xF9) else (if d then 0xFF else 0xFD))
        else (if c then (if d then 0xF3 else 0xF1) else (if d then 0xF7 else 0xF5))
      else if b then (if c then (if d then 0xEB else 0xE9) else (if d then 0xEF else 0xED))
      else (if c then (if d then 0xE3 else 0xE1) else (if d then 0xE7 else 0xE5))
  }

  function G3(x: octet): octet {
    var row, a, b, c, d := x & 0xF0, x & 8 == 0, x & 4 == 0, x & 2 == 0, x & 1 == 0;
    if row == 0x00 then
      if a then
        if b then (if c then (if d then 0x00 else 0x03) else (if d then 0x06 else 0x05))
        else (if c then (if d then 0x0C else 0x0F) else (if d then 0x0A else 0x09))
      else if b then (if c then (if d then 0x18 else 0x1B) else (if d then 0x1E else 0x1D))
      else (if c then (if d then 0x14 else 0x17) else (if d then 0x12 else 0x11))
    else if row == 0x10 then
      if a then
        if b then (if c then (if d then 0x30 else 0x33) else (if d then 0x36 else 0x35))
        else (if c then (if d then 0x3C else 0x3F) else (if d then 0x3A else 0x39))
      else if b then (if c then (if d then 0x28 else 0x2B) else (if d then 0x2E else 0x2D))
      else (if c then (if d then 0x24 else 0x27) else (if d then 0x22 else 0x21))
    else if row == 0x20 then
      if a then
        if b then (if c then (if d then 0x60 else 0x63) else (if d then 0x66 else 0x65))
        else (if c then (if d then 0x6C else 0x6F) else (if d then 0x6A else 0x69))
      else if b then (if c then (if d then 0x78 else 0x7B) else (if d then 0x7E else 0x7D))
      else (if c then (if d then 0x74 else 0x77) else (if d then 0x72 else 0x71))
    else if row == 0x30 then
      if a then
        if b then (if c then (if d then 0x50 else 0x53) else (if d then 0x56 else 0x55))
        else (if c then (if d then 0x5C else 0x5F) else (if d then 0x5A else 0x59))
      else if b then (if c then (if d then 0x48 else 0x4B) else (if d then 0x4E else 0x4D))
      else (if c then (if d then 0x44 else 0x47) else (if d then 0x42 else 0x41))
    else if row == 0x40 then
      if a then
        if b then (if c then (if d then 0xC0 else 0xC3) else (if d then 0xC6 else 0xC5))
        else (if c then (if d then 0xCC else 0xCF) else (if d then 0xCA else 0xC9))
      else if b then (if c then (if d then 0xD8 else 0xDB) else (if d then 0xDE else 0xDD))
      else (if c then (if d then 0xD4 else 0xD7) else (if d then 0xD2 else 0xD1))
    else if row == 0x50 then
      if a then
        if b then (if c then (if d then 0xF0 else 0xF3) else (if d then 0xF6 else 0xF5))
        else (if c then (if d then 0xFC else 0xFF) else (if d then 0xFA else 0xF9))
      else if b then (if c then (if d then 0xE8 else 0xEB) else (if d then 0xEE else 0xED))
      else (if c then (if d then 0xE4 else 0xE7) else (if d then 0xE2 else 0xE1))
    else if row == 0x60 then
      if a then
        if b then (if c then (if d then 0xA0 else 0xA3) else (if d then 0xA6 else 0xA5))
        else (if c then (if d then 0xAC else 0xAF) else (if d then 0xAA else 0xA9))
      else if b then (if c then (if d then 0xB8 else 0xBB) else (if d then 0xBE else 0xBD))
      else (if c then (if d then 0xB4 else 0xB7) else (if d then 0xB2 else 0xB1))
    else if row == 0x70 then
      if a then
        if b then (if c then (if d then 0x90 else 0x93) else (if d then 0x96 else 0x95))
        else (if c then (if d then 0x9C else 0x9F) else (if d then 0x9A else 0x99))
      else if b then (if c then (if d then 0x88 else 0x8B) else (if d then 0x8E else 0x8D))
      else (if c then (if d then 0x84 else 0x87) else (if d then 0x82 else 0x81))
    else if row == 0x80 then
      if a then
        if b then (if c then (if d then 0x9B else 0x98) else (if d then 0x9D else 0x9E))
        else (if c then (if d then 0x97 else 0x94) else (if d then 0x91 else 0x92))
      else if b then (if c then (if d then 0x83 else 0x80) else (if d then 0x85 else 0x86))
      else (if c then (if d then 0x8F else 0x8C) else (if d then 0x89 else 0x8A))
    else if row == 0x90 then
      if a then
        if b then (if c then (if d then 0xAB else 0xA8) else (if d then 0xAD else 0xAE))
        else (if c then (if d then 0xA7 else 0xA4) else (if d then 0xA1 else 0xA2))
      else if b then (if c then (if d then 0xB3 else 0xB0) else (if d then 0xB5 else 0xB6))
      else (if c then (if d then 0xBF else 0xBC) else (if d then 0xB9 else 0xBA))
    else if row == 0xA0 then
      if a then
        if b then (if c then (if d then 0xFB else 0xF8) else (if d then 0xFD else 0xFE))
        else (if c then (if d then 0xF7 else 0xF4) else (if d then 0xF1 else 0xF2))
      else if b then (if c then (if d then 0xE3 else 0xE0) else (if d then 0xE5 else 0xE6))
      else (if c then (if d then 0xEF else 0xEC) else (if d then 0xE9 else 0xEA))
    else if row == 0xB0 then
      if a then
        if b then (if c then (if d then 0xCB else 0xC8) else (if d then 0xCD else 0xCE))
        else (if c then (if d then 0xC7 else 0xC4) else (if d then 0xC1 else 0xC2))
      else if b then (if c then (if d then 0xD3 else 0xD0) else (if d then 0xD5 else 0xD6))
      else (if c then (if d then 0xDF else 0xDC) else (if d then 0xD9 else 0xDA))
    else if row == 0xC0 then
      if a then
        if b then (if c then (if d then 0x5B else 0x58) else (if d then 0x5D else 0x5E))
        else (if c then (if d then 0x57 else 0x54) else (if d then 0x51 else 0x52))
      else if b then (if c then (if d then 0x43 else 0x40) else (if d then 0x45 else 0x46))
      else (if c then (if d then 0x4F else 0x4C) else (if d then 0x49 else 0x4A))
    else if row == 0xD0 then
      if a then
        if b then (if c then (if d then 0x6B else 0x68) else (if d then 0x6D else 0x6E))
        else (if c then (if d then 0x67 else 0x64) else (if d then 0x61 else 0x62))
      else if b then (if c then (if d then 0x73 else 0x70) else (if d then 0x75 else 0x76))
      else (if c then (if d then 0x7F else 0x7C) else (if d then 0x79 else 0x7A))
    else if row == 0xE0 then
      if a then
        if b then (if c then (if d then 0x3B else 0x38) else (if d then 0x3D else 0x3E))
        else (if c then (if d then 0x37 else 0x34) else (if d then 0x31 else 0x32))
      else if b then (if c then (if d then 0x23 else 0x20) else (if d then 0x25 else 0x26))
      else (if c then (if d then 0x2F else 0x2C) else (if d then 0x29 else 0x2A))
    else
      if a then
        if b then (if c then (if d then 0x0B else 0x08) else (if d then 0x0D else 0x0E))
        else (if c then (if d then 0x07 else 0x04) else (if d then 0x01 else 0x02))
      else if b then (if c then (if d then 0x13 else 0x10) else (if d then 0x15 else 0x16))
      else (if c then (if d then 0x1F else 0x1C) else (if d then 0x19 else 0x1A))
  }

  function G9(x: octet): octet {
    var row, a, b, c, d := x & 0xF0, x & 8 == 0, x & 4 == 0, x & 2 == 0, x & 1 == 0;
    if row == 0x00 then
      if a then
        if b then (if c then (if d then 0x00 else 0x09) else (if d then 0x12 else 0x1B))
        else (if c then (if d then 0x24 else 0x2D) else (if d then 0x36 else 0x3F))
      else if b then (if c then (if d then 0x48 else 0x41) else (if d then 0x5A else 0x53))
      else (if c then (if d then 0x6C else 0x65) else (if d then 0x7E else 0x77))
    else if row == 0x10 then
      if a then
        if b then (if c then (if d then 0x90 else 0x99) else (if d then 0x82 else 0x8B))
        else (if c then (if d then 0xB4 else 0xBD) else (if d then 0xA6 else 0xAF))
      else if b then (if c then (if d then 0xD8 else 0xD1) else (if d then 0xCA else 0xC3))
      else (if c then (if d then 0xFC else 0xF5) else (if d then 0xEE else 0xE7))
    else if row == 0x20 then
      if a then
        if b then (if c then (if d then 0x3B else 0x32) else (if d then 0x29 else 0x20))
        else (if c then (if d then 0x1F else 0x16) else (if d then 0x0D else 0x04))
      else if b then (if c then (if d then 0x73 else 0x7A) else (if d then 0x61 else 0x68))
      else (if c then (if d then 0x57 else 0x5E) else (if d then 0x45 else 0x4C))
    else if row == 0x30 then
      if a then
        if b then (if c then (if d then 0xAB else 0xA2) else (if d then 0xB9 else 0xB0))
        else (if c then (if d then 0x8F else 0x86) else (if d then 0x9D else 0x94))
      else if b then (if c then (if d then 0xE3 else 0xEA) else (if d then 0xF1 else 0xF8))
      else (if c then (if d then 0xC7 else 0xCE) else (if d then 0xD5 else 0xDC))
    else if row == 0x40 then
      if a then
        if b then (if c then (if d then 0x76 else 0x7F) else (if d then 0x64 else 0x6D))
        else (if c then (if d then 0x52 else 0x5B) else (if d then 0x40 else 0x49))
      else if b then (if c then (if d then 0x3E else 0x37) else (if d then 0x2C else 0x25))
      else (if c then (if d then 0x1A else 0x13) else (if d then 0x08 else 0x01))
    else if row == 0x50 then
      if a then
        if b then (if c then (if d then 0xE6 else 0xEF) else (if d then 0xF4 else 0xFD))
        else (if c then (if d then 0xC2 else 0xCB) else (if d then 0xD0 else 0xD9))
      else if b then (if c then (if d then 0xAE else 0xA7) else (if d then 0xBC else 0xB5))
      else (if c then (if d then 0x8A else 0x83) else (if d then 0x98 else 0x91))
    else if row == 0x60 then
      if a then
        if b then (if c then (if d then 0x4D else 0x44) else (if d then 0x5F else 0x56))
        else (if c then (if d then 0x69 else 0x60) else (if d then 0x7B else 0x72))
      else if b then (if c then (if d then 0x05 else 0x0C) else (if d then 0x17 else 0x1E))
      else (if c then (if d then 0x21 else 0x28) else (if d then 0x33 else 0x3A))
    else if row == 0x70 then
      if a then
        if b then (if c then (if d then 0xDD else 0xD4) else (if d then 0xCF else 0xC6))
        else (if c then (if d then 0xF9 else 0xF0) else (if d then 0xEB else 0xE2))
      else if b then (if c then (if d then 0x95 else 0x9C) else (if d then 0x87 else 0x8E))
      else (if c then (if d then 0xB1 else 0xB8) else (if d then 0xA3 else 0xAA))
    else if row == 0x80 then
      if a then
        if b then (if c then (if d then 0xEC else 0xE5) else (if d then 0xFE else 0xF7))
        else (if c then (if d then 0xC8 else 0xC1) else (if d then 0xDA else 0xD3))
      else if b then (if c then (if d then 0xA4 else 0xAD) else (if d then 0xB6 else 0xBF))
      else (if c then (if d then 0x80 else 0x89) else (if d then 0x92 else 0x9B))
    else if row == 0x90 then
      if a then
        if b then (if c then (if d then 0x7C else 0x75) else (if d then 0x6E else 0x67))
        else (if c then (if d then 0x58 else 0x51) else (if d then 0x4A else 0x43))
      else if b then (if c then (if d then 0x34 else 0x3D) else (if d then 0x26 else 0x2F))
      else (if c then (if d then 0x10 else 0x19) else (if d then 0x02 else 0x0B))
    else if row == 0xA0 then
      if a then
        if b then (if c then (if d then 0xD7 else 0xDE) else (if d then 0xC5 else 0xCC))
        else (if c then (if d then 0xF3 else 0xFA) else (if d then 0xE1 else 0xE8))
      else if b then (if c then (if d then 0x9F else 0x96) else (if d then 0x8D else 0x84))
      else (if c then (if d then 0xBB else 0xB2) else (if d then 0xA9 else 0xA0))
    else if row == 0xB0 then
      if a then
        if b then (if c then (if d then 0x47 else 0x4E) else (if d then 0x55 else 0x5C))
        else (if c then (if d then 0x63 else 0x6A) else (if d then 0x71 else 0x78))
      else if b then (if c then (if d then 0x0F else 0x06) else (if d then 0x1D else 0x14))
      else (if c then (if d then 0x2B else 0x22) else (if d then 0x39 else 0x30))
    else if row == 0xC0 then
      if a then
        if b then (if c then (if d then 0x9A else 0x93) else (if d then 0x88 else 0x81))
        else (if c then (if d then 0xBE else 0xB7) else (if d then 0xAC else 0xA5))
      else if b then (if c then (if d then 0xD2 else 0xDB) else (if d then 0xC0 else 0xC9))
      else (if c then (if d then 0xF6 else 0xFF) else (if d then 0xE4 else 0xED))
    else if row == 0xD0 then
      if a then
        if b then (if c then (if d then 0x0A else 0x03) else (if d then 0x18 else 0x11))
        else (if c then (if d then 0x2E else 0x27) else (if d then 0x3C else 0x35))
      else if b then (if c then (if d then 0x42 else 0x4B) else (if d then 0x50 else 0x59))
      else (if c then (if d then 0x66 else 0x6F) else (if d then 0x74 else 0x7D))
    else if row == 0xE0 then
      if a then
        if b then (if c then (if d then 0xA1 else 0xA8) else (if d then 0xB3 else 0xBA))
        else (if c then (if d then 0x85 else 0x8C) else (if d then 0x97 else 0x9E))
      else if b then (if c then (if d then 0xE9 else 0xE0) else (if d then 0xFB else 0xF2))
      else (if c then (if d then 0xCD else 0xC4) else (if d then 0xDF else 0xD6))
    else
      if a then
        if b then (if c then (if d then 0x31 else 0x38) else (if d then 0x23 else 0x2A))
        else (if c then (if d then 0x15 else 0x1C) else (if d then 0x07 else 0x0E))
      else if b then (if c then (if d then 0x79 else 0x70) else (if d then 0x6B else 0x62))
      else (if c then (if d then 0x5D else 0x54) else (if d then 0x4F else 0x46))
  }

  function G11(x: octet): octet {
    var row, a, b, c, d := x & 0xF0, x & 8 == 0, x & 4 == 0, x & 2 == 0, x & 1 == 0;
    if row == 0x00 then
      if a then
        if b then (if c then (if d then 0x00 else 0x0B) else (if d then 0x16 else 0x1D))
        else (if c then (if d then 0x2C else 0x27) else (if d then 0x3A else 0x31))
      else if b then (if c then (if d then 0x58 else 0x53) else (if d then 0x4E else 0x45))
      else (if c then (if d then 0x74 else 0x7F) else (if d then 0x62 else 0x69))
    else if row == 0x10 then
      if a then
        if b then (if c then (if d then 0xB0 else 0xBB) else (if d then 0xA6 else 0xAD))
        else (if c then (if d then 0x9C else 0x97) else (if d then 0x8A else 0x81))
      else if b then (if c then (if d then 0xE8 else 0xE3) else (if d then 0xFE else 0xF5))
      else (if c then (if d then 0xC4 else 0xCF) else (if d then 0xD2 else 0xD9))
    else if row == 0x20 then
      if a then
        if b then (if c then (if d then 0x7B else 0x70) else (if d then 0x6D else 0x66))
        else (if c then (if d then 0x57 else 0x5C) else (if d then 0x41 else 0x4A))
      else if b then (if c then (if d then 0x23 else 0x28) else (if d then 0x35 else 0x3E))
      else (if c then (if d then 0x0F else 0x04) else (if d then 0x19 else 0x12))
    else if row == 0x30 then
      if a then
        if b then (if c then (if d then 0xCB else 0xC0) else (if d then 0xDD else 0xD6))
        else (if c then (if d then 0xE7 else 0xEC) else (if d then 0xF1 else 0xFA))
      else if b then (if c then (if d then 0x93 else 0x98) else (if d then 0x85 else 0x8E))
      else (if c then (if d then 0xBF else 0xB4) else (if d then 0xA9 else 0xA2))
    else if row == 0x40 then
      if a then
        if b then (if c then (if d then 0xF6 else 0xFD) else (if d then 0xE0 else 0xEB))
        else (if c then (if d then 0xDA else 0xD1) else (if d then 0xCC else 0xC7))
      else if b then (if c then (if d then 0xAE else 0xA5) else (if d then 0xB8 else 0xB3))
      else (if c then (if d then 0x82 else 0x89) else (if d then 0x94 else 0x9F))
    else if row == 0x50 then
      if a then
        if b then (if c then (if d then 0x46 else 0x4D) else (if d then 0x50 else 0x5B))
        else (if c then (if d then 0x6A else 0x61) else (if d then 0x7C else 0x77))
      else if b then (if c then (if d then 0x1E else 0x15) else (if d then 0x08 else 0x03))
      else (if c then (if d then 0x32 else 0x39) else (if d then 0x24 else 0x2F))
    else if row == 0x60 then
      if a then
        if b then (if c then (if d then 0x8D else 0x86) else (if d then 0x9B else 0x90))
        else (if c then (if d then 0xA1 else 0xAA) else (if d then 0xB7 else 0xBC))
      else if b then (if c then (if d then 0xD5 else 0xDE) else (if d then 0xC3 else 0xC8))
      else (if c then (if d then 0xF9 else 0xF2) else (if d then 0xEF else 0xE4))
    else if row == 0x70 then
      if a then
        if b then (if c then (if d then 0x3D else 0x36) else (if d then 0x2B else 0x20))
        else (if c then (if d then 0x11 else 0x1A) else (if d then 0x07 else 0x0C))
      else if b then (if c then (if d then 0x65 else 0x6E) else (if d then 0x73 else 0x78))
      else (if c then (if d then 0x49 else 0x42) else (if d then 0x5F else 0x54))
    else if row == 0x80 then
      if a then
        if b then (if c then (if d then 0xF7 else 0xFC) else (if d then 0xE1 else 0xEA))
        else (if c then (if d then 0xDB else 0xD0) else (if d then 0xCD else 0xC6))
      else if b then (if c then (if d then 0xAF else 0xA4) else (if d then 0xB9 else 0xB2))
      else (if c then (if d then 0x83 else 0x88) else (if d then 0x95 else 0x9E))
    else if row == 0x90 then
      if a then
        if b then (if c then (if d then 0x47 else 0x4C) else (if d then 0x51 else 0x5A))
        else (if c then (if d then 0x6B else 0x60) else (if d then 0x7D else 0x76))
      else if b then (if c then (if d then 0x1F else 0x14) else (if d then 0x09 else 0x02))
      else (if c then (if d then 0x33 else 0x38) else (if d then 0x25 else 0x2E))
    else if row == 0xA0 then
      if a then
        if b then (if c then (if d then 0x8C else 0x87) else (if d then 0x9A else 0x91))
        else (if c then (if d then 0xA0 else 0xAB) else (if d then 0xB6 else 0xBD))
      else if b then (if c then (if d then 0xD4 else 0xDF) else (if d then 0xC2 else 0xC9))
      else (if c then (if d then 0xF8 else 0xF3) else (if d then 0xEE else 0xE5))
    else if row == 0xB0 then
      if a then
        if b then (if c then (if d then 0x3C else 0x37) else (if d then 0x2A else 0x21))
        else (if c then (if d then 0x10 else 0x1B) else (if d then 0x06 else 0x0D))
      else if b then (if c then (if d then 0x64 else 0x6F) else (if d then 0x72 else 0x79))
      else (if c then (if d then 0x48 else 0x43) else (if d then 0x5E else 0x55))
    else if row == 0xC0 then
      if a then
        if b then (if c then (if d then 0x01 else 0x0A) else (if d then 0x17 else 0x1C))
        else (if c then (if d then 0x2D else 0x26) else (if d then 0x3B else 0x30))
      else if b then (if c then (if d then 0x59 else 0x52) else (if d then 0x4F else 0x44))
      else (if c then (if d then 0x75 else 0x7E) else (if d then 0x63 else 0x68))
    else if row == 0xD0 then
      if a then
        if b then (if c then (if d then 0xB1 else 0xBA) else (if d then 0xA7 else 0xAC))
        else (if c then (if d then 0x9D else 0x96) else (if d then 0x8B else 0x80))
      else if b then (if c then (if d then 0xE9 else 0xE2) else (if d then 0xFF else 0xF4))
      else (if c then (if d then 0xC5 else 0xCE) else (if d then 0xD3 else 0xD8))
    else if row == 0xE0 then
      if a then
        if b then (if c then (if d then 0x7A else 0x71) else (if d then 0x6C else 0x67))
        else (if c then (if d then 0x56 else 0x5D) else (if d then 0x40 else 0x4B))
      else if b then (if c then (if d then 0x22 else 0x29) else (if d then 0x34 else 0x3F))
      else (if c then (if d then 0x0E else 0x05) else (if d then 0x18 else 0x13))
    else
      if a then
        if b then (if c then (if d then 0xCA else 0xC1) else (if d then 0xDC else 0xD7))
        else (if c then (if d then 0xE6 else 0xED) else (if d then 0xF0 else 0xFB))
      else if b then (if c then (if d then 0x92 else 0x99) else (if d then 0x84 else 0x8F))
      else (if c then (if d then 0xBE else 0xB5) else (if d then 0xA8 else 0xA3))
  }

  function G13(x: octet): octet {
    var row, a, b, c, d := x & 0xF0, x & 8 == 0, x & 4 == 0, x & 2 == 0, x & 1 == 0;
    if row == 0x00 then
      if a then
        if b then (if c then (if d then 0x00 else 0x0D) else (if d then 0x1A else 0x17))
        else (if c then (if d then 0x34 else 0x39) else (if d then 0x2E else 0x23))
      else if b then (if c then (if d then 0x68 else 0x65) else (if d then 0x72 else 0x7F))
      else (if c then (if d then 0x5C else 0x51) else (if d then 0x46 else 0x4B))
    else if row == 0x10 then
      if a then
        if b then (if c then (if d then 0xD0 else 0xDD) else (if d then 0xCA else 0xC7))
        else (if c then (if d then 0xE4 else 0xE9) else (if d then 0xFE else 0xF3))
      else if b then (if c then (if d then 0xB8 else 0xB5) else (if d then 0xA2 else 0xAF))
      else (if c then (if d then 0x8C else 0x81) else (if d then 0x96 else 0x9B))
    else if row == 0x20 then
      if a then
        if b then (if c then (if d then 0xBB else 0xB6) else (if d then 0xA1 else 0xAC))
        else (if c then (if d then 0x8F else 0x82) else (if d then 0x95 else 0x98))
      else if b then (if c then (if d then 0xD3 else 0xDE) else (if d then 0xC9 else 0xC4))
      else (if c then (if d then 0xE7 else 0xEA) else (if d then 0xFD else 0xF0))
    else if row == 0x30 then
      if a then
        if b then (if c then (if d then 0x6B else 0x66) else (if d then 0x71 else 0x7C))
        else (if c then (if d then 0x5F else 0x52) else (if d then 0x45 else 0x48))
      else if b then (if c then (if d then 0x03 else 0x0E) else (if d then 0x19 else 0x14))
      else (if c then (if d then 0x37 else 0x3A) else (if d then 0x2D else 0x20))
    else if row == 0x40 then
      if a then
        if b then (if c then (if d then 0x6D else 0x60) else (if d then 0x77 else 0x7A))
        else (if c then (if d then 0x59 else 0x54) else (if d then 0x43 else 0x4E))
      else if b then (if c then (if d then 0x05 else 0x08) else (if d then 0x1F else 0x12))
      else (if c then (if d then 0x31 else 0x3C) else (if d then 0x2B else 0x26))
    else if row == 0x50 then
      if a then
        if b then (if c then (if d then 0xBD else 0xB0) else (if d then 0xA7 else 0xAA))
        else (if c then (if d then 0x89 else 0x84) else (if d then 0x93 else 0x9E))
      else if b then (if c then (if d then 0xD5 else 0xD8) else (if d then 0xCF else 0xC2))
      else (if c then (if d then 0xE1 else 0xEC) else (if d then 0xFB else 0xF6))
    else if row == 0x60 then
      if a then
        if b then (if c then (if d then 0xD6 else 0xDB) else (if d then 0xCC else 0xC1))
        else (if c then (if d then 0xE2 else 0xEF) else (if d then 0xF8 else 0xF5))
      else if b then (if c then (if d then 0xBE else 0xB3) else (if d then 0xA4 else 0xA9))
      else (if c then (if d then 0x8A else 0x87) else (if d then 0x90 else 0x9D))
    else if row == 0x70 then
      if a then
        if b then (if c then (if d then 0x06 else 0x0B) else (if d then 0x1C else 0x11))
        else (if c then (if d then 0x32 else 0x3F) else (if d then 0x28 else 0x25))
      else if b then (if c then (if d then 0x6E else 0x63) else (if d then 0x74 else 0x79))
      else (if c then (if d then 0x5A else 0x57) else (if d then 0x40 else 0x4D))
    else if row == 0x80 then
      if a then
        if b then (if c then (if d then 0xDA else 0xD7) else (if d then 0xC0 else 0xCD))
        else (if c then (if d then 0xEE else 0xE3) else (if d then 0xF4 else 0xF9))
      else if b then (if c then (if d then 0xB2 else 0xBF) else (if d then 0xA8 else 0xA5))
      else (if c then (if d then 0x86 else 0x8B) else (if d then 0x9C else 0x91))
    else if row == 0x90 then
      if a then
        if b then (if c then (if d then 0x0A else 0x07) else (if d then 0x10 else 0x1D))
        else (if c then (if d then 0x3E else 0x33) else (if d then 0x24 else 0x29))
      else if b then (if c then (if d then 0x62 else 0x6F) else (if d then 0x78 else 0x75))
      else (if c then (if d then 0x56 else 0x5B) else (if d then 0x4C else 0x41))
    else if row == 0xA0 then
      if a then
        if b then (if c then (if d then 0x61 else 0x6C) else (if d then 0x7B else 0x76))
        else (if c then (if d then 0x55 else 0x58) else (if d then 0x4F else 0x42))
      else if b then (if c then (if d then 0x09 else 0x04) else (if d then 0x13 else 0x1E))
      else (if c then (if d then 0x3D else 0x30) else (if d then 0x27 else 0x2A))
    else if row == 0xB0 then
      if a then
        if b then (if c then (if d then 0xB1 else 0xBC) else (if d then 0xAB else 0xA6))
        else (if c then (if d then 0x85 else 0x88) else (if d then 0x9F else 0x92))
      else if b then (if c then (if d then 0xD9 else 0xD4) else (if d then 0xC3 else 0xCE))
      else (if c then (if d then 0xED else 0xE0) else (if d then 0xF7 else 0xFA))
    else if row == 0xC0 then
      if a then
        if b then (if c then (if d then 0xB7 else 0xBA) else (if d then 0xAD else 0xA0))
        else (if c then (if d then 0x83 else 0x8E) else (if d then 0x99 else 0x94))
      else if b then (if c then (if d then 0xDF else 0xD2) else (if d then 0xC5 else 0xC8))
      else (if c then (if d then 0xEB else 0xE6) else (if d then 0xF1 else 0xFC))
    else if row == 0xD0 then
      if a then
        if b then (if c then (if d then 0x67 else 0x6A) else (if d then 0x7D else 0x70))
        else (if c then (if d then 0x53 else 0x5E) else (if d then 0x49 else 0x44))
      else if b then (if c then (if d then 0x0F else 0x02) else (if d then 0x15 else 0x18))
      else (if c then (if d then 0x3B else 0x36) else (if d then 0x21 else 0x2C))
    else if row == 0xE0 then
      if a then
        if b then (if c then (if d then 0x0C else 0x01) else (if d then 0x16 else 0x1B))
        else (if c then (if d then 0x38 else 0x35) else (if d then 0x22 else 0x2F))
      else if b then (if c then (if d then 0x64 else 0x69) else (if d then 0x7E else 0x73))
      else (if c then (if d then 0x50 else 0x5D) else (if d then 0x4A else 0x47))
    else
      if a then
        if b then (if c then (if d then 0xDC else 0xD1) else (if d then 0xC6 else 0xCB))
        else (if c then (if d then 0xE8 else 0xE5) else (if d then 0xF2 else 0xFF))
      else if b then (if c then (if d then 0xB4 else 0xB9) else (if d then 0xAE else 0xA3))
      else (if c then (if d then 0x80 else 0x8D) else (if d then 0x9A else 0x97))
  }

  function G14(x: octet): octet {
    var row, a, b, c, d := x & 0xF0, x & 8 == 0, x & 4 == 0, x & 2 == 0, x & 1 == 0;
    if row == 0x00 then
      if a then
        if b then (if c then (if d then 0x00 else 0x0E) else (if d then 0x1C else 0x12))
        else (if c then (if d then 0x38 else 0x36) else (if d then 0x24 else 0x2A))
      else if b then (if c then (if d then 0x70 else 0x7E) else (if d then 0x6C else 0x62))
      else (if c then (if d then 0x48 else 0x46) else (if d then 0x54 else 0x5A))
    else if row == 0x10 then
      if a then
        if b then (if c then (if d then 0xE0 else 0xEE) else (if d then 0xFC else 0xF2))
        else (if c then (if d then 0xD8 else 0xD6) else (if d then 0xC4 else 0xCA))
      else if b then (if c then (if d then 0x90 else 0x9E) else (if d then 0x8C else 0x82))
      else (if c then (if d then 0xA8 else 0xA6) else (if d then 0xB4 else 0xBA))
    else if row == 0x20 then
      if a then
        if b then (if c then (if d then 0xDB else 0xD5) else (if d then 0xC7 else 0xC9))
        else (if c then (if d then 0xE3 else 0xED) else (if d then 0xFF else 0xF1))
      else if b then (if c then (if d then 0xAB else 0xA5) else (if d then 0xB7 else 0xB9))
      else (if c then (if d then 0x93 else 0x9D) else (if d then 0x8F else 0x81))
    else if row == 0x30 then
      if a then
        if b then (if c then (if d then 0x3B else 0x35) else (if d then 0x27 else 0x29))
        else (if c then (if d then 0x03 else 0x0D) else (if d then 0x1F else 0x11))
      else if b then (if c then (if d then 0x4B else 0x45) else (if d then 0x57 else 0x59))
      else (if c then (if d then 0x73 else 0x7D) else (if d then 0x6F else 0x61))
    else if row == 0x40 then
      if a then
        if b then (if c then (if d then 0xAD else 0xA3) else (if d then 0xB1 else 0xBF))
        else (if c then (if d then 0x95 else 0x9B) else (if d then 0x89 else 0x87))
      else if b then (if c then (if d then 0xDD else 0xD3) else (if d then 0xC1 else 0xCF))
      else (if c then (if d then 0xE5 else 0xEB) else (if d then 0xF9 else 0xF7))
    else if row == 0x50 then
      if a then
        if b then (if c then (if d then 0x4D else 0x43) else (if d then 0x51 else 0x5F))
        else (if c then (if d then 0x75 else 0x7B) else (if d then 0x69 else 0x67))
      else if b then (if c then (if d then 0x3D else 0x33) else (if d then 0x21 else 0x2F))
      else (if c then (if d then 0x05 else 0x0B) else (if d then 0x19 else 0x17))
    else if row == 0x60 then
      if a then
        if b then (if c then (if d then 0x76 else 0x78) else (if d then 0x6A else 0x64))
        else (if c then (if d then 0x4E else 0x40) else (if d then 0x52 else 0x5C))
      else if b then (if c then (if d then 0x06 else 0x08) else (if d then 0x1A else 0x14))
      else (if c then (if d then 0x3E else 0x30) else (if d then 0x22 else 0x2C))
    else if row == 0x70 then
      if a then
        if b then (if c then (if d then 0x96 else 0x98) else (if d then 0x8A else 0x84))
        else (if c then (if d then 0xAE else 0xA0) else (if d then 0xB2 else 0xBC))
      else if b then (if c then (if d then 0xE6 else 0xE8) else (if d then 0xFA else 0xF4))
      else (if c then (if d then 0xDE else 0xD0) else (if d then 0xC2 else 0xCC))
    else if row == 0x80 then
      if a then
        if b then (if c then (if d then 0x41 else 0x4F) else (if d then 0x5D else 0x53))
        else (if c then (if d then 0x79 else 0x77) else (if d then 0x65 else 0x6B))
      else if b then (if c then (if d then 0x31 else 0x3F) else (if d then 0x2D else 0x23))
      else (if c then (if d then 0x09 else 0x07) else (if d then 0x15 else 0x1B))
    else if row == 0x90 then
      if a then
        if b then (if c then (if d then 0xA1 else 0xAF) else (if d then 0xBD else 0xB3))
        else (if c then (if d then 0x99 else 0x97) else (if d then 0x85 else 0x8B))
      else if b then (if c then (if d then 0xD1 else 0xDF) else (if d then 0xCD else 0xC3))
      else (if c then (if d then 0xE9 else 0xE7) else (if d then 0xF5 else 0xFB))
    else if row == 0xA0 then
      if a then
        if b then (if c then (if d then 0x9A else 0x94) else (if d then 0x86 else 0x88))
        else (if c then (if d then 0xA2 else 0xAC) else (if d then 0xBE else 0xB0))
      else if b then (if c then (if d then 0xEA else 0xE4) else (if d then 0xF6 else 0xF8))
      else (if c then (if d then 0xD2 else 0xDC) else (if d then 0xCE else 0xC0))
    else if row == 0xB0 then
      if a then
        if b then (if c then (if d then 0x7A else 0x74) else (if d then 0x66 else 0x68))
        else (if c then (if d then 0x42 else 0x4C) else (if d then 0x5E else 0x50))
      else if b then (if c then (if d then 0x0A else 0x04) else (if d then 0x16 else 0x18))
      else (if c then (if d then 0x32 else 0x3C) else (if d then 0x2E else 0x20))
    else if row == 0xC0 then
      if a then
        if b then (if c then (if d then 0xEC else 0xE2) else (if d then 0xF0 else 0xFE))
        else (if c then (if d then 0xD4 else 0xDA) else (if d then 0xC8 else 0xC6))
      else if b then (if c then (if d then 0x9C else 0x92) else (if d then 0x80 else 0x8E))
      else (if c then (if d then 0xA4 else 0xAA) else (if d then 0xB8 else 0xB6))
    else if row == 0xD0 then
      if a then
        if b then (if c then (if d then 0x0C else 0x02) else (if d then 0x10 else 0x1E))
        else (if c then (if d then 0x34 else 0x3A) else (if d then 0x28 else 0x26))
      else if b then (if c then (if d then 0x7C else 0x72) else (if d then 0x60 else 0x6E))
      else (if c then (if d then 0x44 else 0x4A) else (if d then 0x58 else 0x56))
    else if row == 0xE0 then
      if a then
        if b then (if c then (if d then 0x37 else 0x39) else (if d then 0x2B else 0x25))
        else (if c then (if d then 0x0F else 0x01) else (if d then 0x13 else 0x1D))
      else if b then (if c then (if d then 0x47 else 0x49) else (if d then 0x5B else 0x55))
      else (if c then (if d then 0x7F else 0x71) else (if d then 0x63 else 0x6D))
    else
      if a then
        if b then (if c then (if d then 0xD7 else 0xD9) else (if d then 0xCB else 0xC5))
        else (if c then (if d then 0xEF else 0xE1) else (if d then 0xF3 else 0xFD))
      else if b then (if c then (if d then 0xA7 else 0xA9) else (if d then 0xBB else 0xB5))
      else (if c then (if d then 0x9F else 0x91) else (if d then 0x83 else 0x8D))
  }

  function Sbox(x: octet): octet {
    var row, a, b, c, d := x & 0xF0, x & 8 == 0, x & 4 == 0, x & 2 == 0, x & 1 == 0;
    if row == 0x00 then
      if a then
        if b then (if c then (if d then 0x63 else 0x7C) else (if d then 0x77 else 0x7B))
        else (if c then (if d then 0xF2 else 0x6B) else (if d then 0x6F else 0xC5))
      else if b then (if c then (if d then 0x30 else 0x01) else (if d then 0x67 else 0x2B))
      else (if c then (if d then 0xFE else 0xD7) else (if d then 0xAB else 0x76))
    else if row == 0x10 then
      if a then
        if b then (if c then (if d then 0xCA else 0x82) else (if d then 0xC9 else 0x7D))
        else (if c then (if d then 0xFA else 0x59) else (if d then 0x47 else 0xF0))
      else if b then (if c then (if d then 0xAD else 0xD4) else (if d then 0xA2 else 0xAF))
      else (if c then (if d then 0x9C else 0xA4) else (if d then 0x72 else 0xC0))
    else if row == 0x20 then
      if a then
        if b then (if c then (if d then 0xB7 else 0xFD) else (if d then 0x93 else 0x26))
        else (if c then (if d then 0x36 else 0x3F) else (if d then 0xF7 else 0xCC))
      else if b then (if c then (if d then 0x34 else 0xA5) else (if d then 0xE5 else 0xF1))
      else (if c then (if d then 0x71 else 0xD8) else (if d then 0x31 else 0x15))
    else if row == 0x30 then
      if a then
        if b then (if c then (if d then 0x04 else 0xC7) else (if d then 0x23 else 0xC3))
        else (if c then (if d then 0x18 else 0x96) else (if d then 0x05 else 0x9A))
      else if b then (if c then (if d then 0x07 else 0x12) else (if d then 0x80 else 0xE2))
      else (if c then (if d then 0xEB else 0x27) else (if d then 0xB2 else 0x75))
    else if row == 0x40 then
      if a then
        if b then (if c then (if d then 0x09 else 0x83) else (if d then 0x2C else 0x1A))
        else (if c then (if d then 0x1B else 0x6E) else (if d then 0x5A else 0xA0))
      else if b then (if c then (if d then 0x52 else 0x3B) else (if d then 0xD6 else 0xB3))
      else (if c then (if d then 0x29 else 0xE3) else (if d then 0x2F else 0x84))
    else if row == 0x50 then
      if a then
        if b then (if c then (if d then 0x53 else 0xD1) else (if d then 0x00 else 0xED))
        else (if c then (if d then 0x20 else 0xFC) else (if d then 0xB1 else 0x5B))
      else if b then (if c then (if d then 0x6A else 0xCB) else (if d then 0xBE else 0x39))
      else (if c then (if d then 0x4A else 0x4C) else (if d then 0x58 else 0xCF))
    else if row == 0x60 then
      if a then
        if b then (if c then (if d then 0xD0 else 0xEF) else (if d then 0xAA else 0xFB))
        else (if c then (if d then 0x43 else 0x4D) else (if d then 0x33 else 0x85))
      else if b then (if c then (if d then 0x45 else 0xF9) else (if d then 0x02 else 0x7F))
      else (if c then (if d then 0x50 else 0x3C) else (if d then 0x9F else 0xA8))
    else if row == 0x70 then
      if a then
        if b then (if c then (if d then 0x51 else 0xA3) else (if d then 0x40 else 0x8F))
        else (if c then (if d then 0x92 else 0x9D) else (if d then 0x38 else 0xF5))
      else if b then (if c then (if d then 0xBC else 0xB6) else (if d then 0xDA else 0x21))
      else (if c then (if d then 0x10 else 0xFF) else (if d then 0xF3 else 0xD2))
    else if row == 0x80 then
      if a then
        if b then (if c then (if d then 0xCD else 0x0C) else (if d then 0x13 else 0xEC))
        else (if c then (if d then 0x5F else 0x97) else (if d then 0x44 else 0x17))
      else if b then (if c then (if d then 0xC4 else 0xA7) else (if d then 0x7E else 0x3D))
      else (if c then (if d then 0x64 else 0x5D) else (if d then 0x19 else 0x73))
    else if row == 0x90 then
      if a then
        if b then (if c then (if d then 0x60 else 0x81) else (if d then 0x4F else 0xDC))
        else (if c then (if d then 0x22 else 0x2A) else (if d then 0x90 else 0x88))
      else if b then (if c then (if d then 0x46 else 0xEE) else (if d then 0xB8 else 0x14))
      else (if c then (if d then 0xDE else 0x5E) else (if d then 0x0B else 0xDB))
    else if row == 0xA0 then
      if a then
        if b then (if c then (if d then 0xE0 else 0x32) else (if d then 0x3A else 0x0A))
        else (if c then (if d then 0x49 else 0x06) else (if d then 0x24 else 0x5C))
      else if b then (if c then (if d then 0xC2 else 0xD3) else (if d then 0xAC else 0x62))
      else (if c then (if d then 0x91 else 0x95) else (if d then 0xE4 else 0x79))
    else if row == 0xB0 then
      if a then
        if b then (if c then (if d then 0xE7 else 0xC8) else (if d then 0x37 else 0x6D))
        else (if c then (if d then 0x8D else 0xD5) else (if d then 0x4E else 0xA9))
      else if b then (if c then (if d then 0x6C else 0x56) else (if d then 0xF4 else 0xEA))
      else (if c then (if d then 0x65 else 0x7A) else (if d then 0xAE else 0x08))
    else if row == 0xC0 then
      if a then
        if b then (if c then (if d then 0xBA else 0x78) else (if d then 0x25 else 0x2E))
        else (if c then (if d then 0x1C else 0xA6) else (if d then 0xB4 else 0xC6))
      else if b then (if c then (if d then 0xE8 else 0xDD) else (if d then 0x74 else 0x1F))
      else (if c then (if d then 0x4B else 0xBD) else (if d then 0x8B else 0x8A))
    else if row == 0xD0 then
      if a then
        if b then (if c then (if d then 0x70 else 0x3E) else (if d then 0xB5 else 0x66))
        else (if c then (if d then 0x48 else 0x03) else (if d then 0xF6 else 0x0E))
      else if b then (if c then (if d then 0x61 else 0x35) else (if d then 0x57 else 0xB9))
      else (if c then (if d then 0x86 else 0xC1) else (if d then 0x1D else 0x9E))
    else if row == 0xE0 then
      if a then
        if b then (if c then (if d then 0xE1 else 0xF8) else (if d then 0x98 else 0x11))
        else (if c then (if d then 0x69 else 0xD9) else (if d then 0x8E else 0x94))
      else if b then (if c then (if d then 0x9B else 0x1E) else (if d then 0x87 else 0xE9))
      else (if c then (if d then 0xCE else 0x55) else (if d then 0x28 else 0xDF))
    else
      if a then
        if b then (if c then (if d then 0x8C else 0xA1) else (if d then 0x89 else 0x0D))
        else (if c then (if d then 0xBF else 0xE6) else (if d then 0x42 else 0x68))
      else if b then (if c then (if d then 0x41 else 0x99) else (if d then 0x2D else 0x0F))
      else (if c then (if d then 0xB0 else 0x54) else (if d then 0xBB else 0x16))
  }

  function SboxInv(x: octet): octet {
    var row, a, b, c, d := x & 0xF0, x & 8 == 0, x & 4 == 0, x & 2 == 0, x & 1 == 0;
    if row == 0x00 then
      if a then
        if b then (if c then (if d then 0x52 else 0x09) else (if d then 0x6A else 0xD5))
        else (if c then (if d then 0x30 else 0x36) else (if d then 0xA5 else 0x38))
      else if b then (if c then (if d then 0xBF else 0x40) else (if d then 0xA3 else 0x9E))
      else (if c then (if d then 0x81 else 0xF3) else (if d then 0xD7 else 0xFB))
    else if row == 0x10 then
      if a then
        if b then (if c then (if d then 0x7C else 0xE3) else (if d then 0x39 else 0x82))
        else (if c then (if d then 0x9B else 0x2F) else (if d then 0xFF else 0x87))
      else if b then (if c then (if d then 0x34 else 0x8E) else (if d then 0x43 else 0x44))
      else (if c then (if d then 0xC4 else 0xDE) else (if d then 0xE9 else 0xCB))
    else if row == 0x20 then
      if a then
        if b then (if c then (if d then 0x54 else 0x7B) else (if d then 0x94 else 0x32))
        else (if c then (if d then 0xA6 else 0xC2) else (if d then 0x23 else 0x3D))
      else if b then (if c then (if d then 0xEE else 0x4C) else (if d then 0x95 else 0x0B))
      else (if c then (if d then 0x42 else 0xFA) else (if d then 0xC3 else 0x4E))
    else if row == 0x30 then
      if a then
        if b then (if c then (if d then 0x08 else 0x2E) else (if d then 0xA1 else 0x66))
        else (if c then (if d then 0x28 else 0xD9) else (if d then 0x24 else 0xB2))
      else if b then (if c then (if d then 0x76 else 0x5B) else (if d then 0xA2 else 0x49))
      else (if c then (if d then 0x6D else 0x8B) else (if d then 0xD1 else 0x25))
    else if row == 0x40 then
      if a then
        if b then (if c then (if d then 0x72 else 0xF8) else (if d then 0xF6 else 0x64))
        else (if c then (if d then 0x86 else 0x68) else (if d then 0x98 else 0x16))
      else if b then (if c then (if d then 0xD4 else 0xA4) else (if d then 0x5C else 0xCC))
      else (if c then (if d then 0x5D else 0x65) else (if d then 0xB6 else 0x92))
    else if row == 0x50 then
      if a then
        if b then (if c then (if d then 0x6C else 0x70) else (if d then 0x48 else 0x50))
        else (if c then (if d then 0xFD else 0xED) else (if d then 0xB9 else 0xDA))
      else if b then (if c then (if d then 0x5E else 0x15) else (if d then 0x46 else 0x57))
      else (if c then (if d then 0xA7 else 0x8D) else (if d then 0x9D else 0x84))
    else if row == 0x60 then
      if a then
        if b then (if c then (if d then 0x90 else 0xD8) else (if d then 0xAB else 0x00))
        else (if c then (if d then 0x8C else 0xBC) else (if d then 0xD3 else 0x0A))
      else if b then (if c then (if d then 0xF7 else 0xE4) else (if d then 0x58 else 0x05))
      else (if c then (if d then 0xB8 else 0xB3) else (if d then 0x45 else 0x06))
    else if row == 0x70 then
      if a then
        if b then (if c then (if d then 0xD0 else 0x2C) else (if d then 0x1E else 0x8F))
        else (if c then (if d then 0xCA else 0x3F) else (if d then 0x0F else 0x02))
      else if b then (if c then (if d then 0xC1 else 0xAF) else (if d then 0xBD else 0x03))
      else (if c then (if d then 0x01 else 0x13) else (if d then 0x8A else 0x6B))
    else if row == 0x80 then
      if a then
        if b then (if c then (if d then 0x3A else 0x91) else (if d then 0x11 else 0x41))
        else (if c then (if d then 0x4F else 0x67) else (if d then 0xDC else 0xEA))
      else if b then (if c then (if d then 0x97 else 0xF2) else (if d then 0xCF else 0xCE))
      else (if c then (if d then 0xF0 else 0xB4) else (if d then 0xE6 else 0x73))
    else if row == 0x90 then
      if a then
        if b then (if c then (if d then 0x96 else 0xAC) else (if d then 0x74 else 0x22))
        else (if c then (if d then 0xE7 else 0xAD) else (if d then 0x35 else 0x85))
      else if b then (if c then (if d then 0xE2 else 0xF9) else (if d then 0x37 else 0xE8))
      else (if c then (if d then 0x1C else 0x75) else (if d then 0xDF else 0x6E))
    else if row == 0xA0 then
      if a then
        if b then (if c then (if d then 0x47 else 0xF1) else (if d then 0x1A else 0x71))
        else (if c then (if d then 0x1D else 0x29) else (if d then 0xC5 else 0x89))
      else if b then (if c then (if d then 0x6F else 0xB7) else (if d then 0x62 else 0x0E))
      else (if c then (if d then 0xAA else 0x18) else (if d then 0xBE else 0x1B))
    else if row == 0xB0 then
      if a then
        if b then (if c then (if d then 0xFC else 0x56) else (if d then 0x3E else 0x4B))
        else (if c then (if d then 0xC6 else 0xD2) else (if d then 0x79 else 0x20))
      else if b then (if c then (if d then 0x9A else 0xDB) else (if d then 0xC0 else 0xFE))
      else (if c then (if d then 0x78 else 0xCD) else (if d then 0x5A else 0xF4))
    else if row == 0xC0 then
      if a then
        if b then (if c then (if d then 0x1F else 0xDD) else (if d then 0xA8 else 0x33))
        else (if c then (if d then 0x88 else 0x07) else (if d then 0xC7 else 0x31))
      else if b then (if c then (if d then 0xB1 else 0x12) else (if d then 0x10 else 0x59))
      else (if c then (if d then 0x27 else 0x80) else (if d then 0xEC else 0x5F))
    else if row == 0xD0 then
      if a then
        if b then (if c then (if d then 0x60 else 0x51) else (if d then 0x7F else 0xA9))
        else (if c then (if d then 0x19 else 0xB5) else (if d then 0x4A else 0x0D))
      else if b then (if c then (if d then 0x2D else 0xE5) else (if d then 0x7A else 0x9F))
      else (if c then (if d then 0x93 else 0xC9) else (if d then 0x9C else 0xEF))
    else if row == 0xE0 then
      if a then
        if b then (if c then (if d then 0xA0 else 0xE0) else (if d then 0x3B else 0x4D))
        else (if c then (if d then 0xAE else 0x2A) else (if d then 0xF5 else 0xB0))
      else if b then (if c then (if d then 0xC8 else 0xEB) else (if d then 0xBB else 0x3C))
      else (if c then (if d then 0x83 else 0x53) else (if d then 0x99 else 0x61))
    else
      if a then
        if b then (if c then (if d then 0x17 else 0x2B) else (if d then 0x04 else 0x7E))
        else (if c then (if d then 0xBA else 0x77) else (if d then 0xD6 else 0x26))
      else if b then (if c then (if d then 0xE1 else 0x69) else (if d then 0x14 else 0x63))
      else (if c then (if d then 0x55 else 0x21) else (if d then 0x0C else 0x7D))
  }
  // ---------- what the tables hold ----------

  /** x times 2, modulo x^8 + x^4 + x^3 + x + 1: the bit shifted out comes back at four places. */
  function Mul2(x: octet): octet { (x << 1) ^ (x >> 7) ^ ((x >> 7) << 1) ^ ((x >> 7) << 3) ^ ((x >> 7) << 4) }

  /** The usual way of computing it. */
  lemma Mul2Conditional(x: octet)
    ensures Mul2(x) == if x & 0x80 == 0 then x << 1 else (x << 1) ^ 0x1B
  {}

  function Mul3(x: octet): octet { XorByte(Mul2(x), x) }

  function Mul8(x: octet): octet { Mul2(Mul2(Mul2(x))) }

  function Mul9(x: octet): octet { XorByte(Mul8(x), x) }

  function Mul11(x: octet): octet { XorByte(Mul9(x), Mul2(x)) }

  function Mul13(x: octet): octet { XorByte(Mul9(x), Mul2(Mul2(x))) }

  function Mul14(x: octet): octet { XorByte(Mul8(x), XorByte(Mul2(Mul2(x)), Mul2(x))) }

  lemma G2Is(x: octet)
    ensures G2(x) == Mul2(x)
  {}

  lemma G3Is(x: octet)
    ensures G3(x) == Mul3(x)
  {}

  lemma G9Is(x: octet)
    ensures G9(x) == Mul9(x)
  {}

  lemma G11Low(x: octet)
    requires x & 0x80 == 0
    ensures G11(x) == Mul11(x)
  {}

  lemma G11High(x: octet)
    requires x & 0x80 != 0
    ensures G11(x) == Mul11(x)
  {}

  lemma G11Is(x: octet)
    ensures G11(x) == Mul11(x)
  {
    if x & 0x80 == 0 { G11Low(x); } else { G11High(x); }
  }

  lemma G13Low(x: octet)
    requires x & 0x80 == 0
    ensures G13(x) == Mul13(x)
  {}

  lemma G13High(x: octet)
    requires x & 0x80 != 0
    ensures G13(x) == Mul13(x)
  {}

  lemma G13Is(x: octet)
    ensures G13(x) == Mul13(x)
  {
    if x & 0x80 == 0 { G13Low(x); } else { G13High(x); }
  }

  lemma G14Low(x: octet)
    requires x & 0x80 == 0
    ensures G14(x) == Mul14(x)
  {}

  lemma G14High(x: octet)
    requires x & 0x80 != 0
    ensures G14(x) == Mul14(x)
  {}

  lemma G14Is(x: octet)
    ensures G14(x) == Mul14(x)
  {
    if x & 0x80 == 0 { G14Low(x); } else { G14High(x); }
  }

  /** The S-box and its inverse are bijections, each undoing the other. */
  lemma SboxesInverse(x: octet)
    ensures SboxInv(Sbox(x)) == x && Sbox(SboxInv(x)) == x
  {
    SboxUndone(x);
    SboxInvUndone(x);
  }

  lemma SboxUndone(x: octet)
    ensures SboxInv(Sbox(x)) == x
  {}

  lemma SboxInvUndone(x: octet)
    ensures Sbox(SboxInv(x)) == x
  {}

  // ---------- sums of four bytes ----------

  function Sum4(a: octet, b: octet, c: octet, d: octet): octet { XorByte(XorByte(a, b), XorByte(c, d)) }

  lemma Swap(a: octet, b: octet, c: octet, d: octet)
    ensures XorByte(XorByte(a, b), XorByte(c, d)) == XorByte(XorByte(a, c), XorByte(b, d))
  {
    XorAssociates(a, b, XorByte(c, d));
    XorAssociates(b, c, d);
    XorCommutes(b, c);
    XorAssociates(c, b, d);
    XorAssociates(a, c, XorByte(b, d));
  }

  lemma AddSums(a: octet, b: octet, c: octet, d: octet, e: octet, f: octet, g: octet, h: octet)
    ensures XorByte(Sum4(a, b, c, d), Sum4(e, f, g, h))
            == Sum4(XorByte(a, e), XorByte(b, f), XorByte(c, g), XorByte(d, h))
  {
    Swap(XorByte(a, b), XorByte(c, d), XorByte(e, f), XorByte(g, h));
    Swap(a, b, e, f);
    Swap(c, d, g, h);
  }

  /** A table of sixteen bytes adds up to the same by rows and by columns. */
  lemma Transpose(
      p: (octet, octet, octet, octet), q: (octet, octet, octet, octet),
      r: (octet, octet, octet, octet), s: (octet, octet, octet, octet))
    ensures Sum4(Sum4(p.0, p.1, p.2, p.3), Sum4(q.0, q.1, q.2, q.3), Sum4(r.0, r.1, r.2, r.3), Sum4(s.0, s.1, s.2, s.3))
         == Sum4(Sum4(p.0, q.0, r.0, s.0), Sum4(p.1, q.1, r.1, s.1), Sum4(p.2, q.2, r.2, s.2), Sum4(p.3, q.3, r.3, s.3))
  {
    AddSums(p.0, p.1, p.2, p.3, q.0, q.1, q.2, q.3);
    AddSums(r.0, r.1, r.2, r.3, s.0, s.1, s.2, s.3);
    AddSums(XorByte(p.0, q.0), XorByte(p.1, q.1), XorByte(p.2, q.2), XorByte(p.3, q.3),
            XorByte(r.0, s.0), XorByte(r.1, s.1), XorByte(r.2, s.2), XorByte(r.3, s.3));
  }

  /** The order of the four does not matter. */
  lemma Rotate(a: octet, b: octet, c: octet, d: octet)
    ensures Sum4(b, c, d, a) == Sum4(a, b, c, d)
  {
    XorCommutes(XorByte(b, c), XorByte(d, a));
    XorCommutes(d, a);
    Swap(a, d, b, c);
    XorCommutes(d, c);
  }

  lemma Zeros(a: octet)
    ensures Sum4(a, 0, 0, 0) == a
  {}

  // ---------- multiplication distributes over sums ----------

  lemma Mul2Linear(x: octet, y: octet)
    ensures Mul2(x ^ y) == Mul2(x) ^ Mul2(y)
  {}

  lemma Mul2Xor(x: octet, y: octet)
    ensures Mul2(XorByte(x, y)) == XorByte(Mul2(x), Mul2(y))
  {
    Mul2Linear(x, y);
  }

  lemma Mul2Sum(a: octet, b: octet, c: octet, d: octet)
    ensures Mul2(Sum4(a, b, c, d)) == Sum4(Mul2(a), Mul2(b), Mul2(c), Mul2(d))
  {
    Mul2Xor(a, b);
    Mul2Xor(c, d);
    Mul2Xor(XorByte(a, b), XorByte(c, d));
  }

  lemma Mul3Sum(a: octet, b: octet, c: octet, d: octet)
    ensures Mul3(Sum4(a, b, c, d)) == Sum4(Mul3(a), Mul3(b), Mul3(c), Mul3(d))
  {
    Mul2Sum(a, b, c, d);
    AddSums(Mul2(a), Mul2(b), Mul2(c), Mul2(d), a, b, c, d);
  }

  lemma Mul4Sum(a: octet, b: octet, c: octet, d: octet)
    ensures Mul2(Mul2(Sum4(a, b, c, d))) == Sum4(Mul2(Mul2(a)), Mul2(Mul2(b)), Mul2(Mul2(c)), Mul2(Mul2(d)))
  {
    Mul2Sum(a, b, c, d);
    Mul2Sum(Mul2(a), Mul2(b), Mul2(c), Mul2(d));
  }

  lemma Mul8Sum(a: octet, b: octet, c: octet, d: octet)
    ensures Mul8(Sum4(a, b, c, d)) == Sum4(Mul8(a), Mul8(b), Mul8(c), Mul8(d))
  {
    Mul4Sum(a, b, c, d);
    Mul2Sum(Mul2(Mul2(a)), Mul2(Mul2(b)), Mul2(Mul2(c)), Mul2(Mul2(d)));
  }

  lemma Mul9Sum(a: octet, b: octet, c: octet, d: octet)
    ensures Mul9(Sum4(a, b, c, d)) == Sum4(Mul9(a), Mul9(b), Mul9(c), Mul9(d))
  {
    Mul8Sum(a, b, c, d);
    AddSums(Mul8(a), Mul8(b), Mul8(c), Mul8(d), a, b, c, d);
  }

  lemma Mul11Sum(a: octet, b: octet, c: octet, d: octet)
    ensures Mul11(Sum4(a, b, c, d)) == Sum4(Mul11(a), Mul11(b), Mul11(c), Mul11(d))
  {
    Mul9Sum(a, b, c, d);
    Mul2Sum(a, b, c, d);
    AddSums(Mul9(a), Mul9(b), Mul9(c), Mul9(d), Mul2(a), Mul2(b), Mul2(c), Mul2(d));
  }

  lemma Mul13Sum(a: octet, b: octet, c: octet, d: octet)
    ensures Mul13(Sum4(a, b, c, d)) == Sum4(Mul13(a), Mul13(b), Mul13(c), Mul13(d))
  {
    Mul9Sum(a, b, c, d);
    Mul4Sum(a, b, c, d);
    AddSums(Mul9(a), Mul9(b), Mul9(c), Mul9(d), Mul2(Mul2(a)), Mul2(Mul2(b)), Mul2(Mul2(c)), Mul2(Mul2(d)));
  }

  function Mul6(x: octet): octet { XorByte(Mul2(Mul2(x)), Mul2(x)) }

  lemma Mul14Sum(a: octet, b: octet, c: octet, d: octet)
    ensures Mul14(Sum4(a, b, c, d)) == Sum4(Mul14(a), Mul14(b), Mul14(c), Mul14(d))
  {
    Mul8Sum(a, b, c, d);
    Mul4Sum(a, b, c, d);
    Mul2Sum(a, b, c, d);
    AddSums(Mul2(Mul2(a)), Mul2(Mul2(b)), Mul2(Mul2(c)), Mul2(Mul2(d)), Mul2(a), Mul2(b), Mul2(c), Mul2(d));
    AddSums(Mul8(a), Mul8(b), Mul8(c), Mul8(d), Mul6(a), Mul6(b), Mul6(c), Mul6(d));
  }

  // ---------- mixing columns ----------

  /** A byte of MixColumns, from the bytes of its column starting with its own place. */
  function Forward(a: octet, b: octet, c: octet, d: octet): octet { Sum4(Mul2(a), Mul3(b), c, d) }

  /** A byte of InvMixColumns. */
  function Backward(a: octet, b: octet, c: octet, d: octet): octet { Sum4(Mul14(a), Mul11(b), Mul13(c), Mul9(d)) }

  /** The first column of the product of the two matrices, and its inverse's: (1, 0, 0, 0). */
  lemma ForwardCoefficients(a: octet)
    ensures Forward(Mul14(a), Mul9(a), Mul13(a), Mul11(a)) == a
    ensures Forward(Mul11(a), Mul14(a), Mul9(a), Mul13(a)) == 0
    ensures Forward(Mul13(a), Mul11(a), Mul14(a), Mul9(a)) == 0
    ensures Forward(Mul9(a), Mul13(a), Mul11(a), Mul14(a)) == 0
  {
    ForwardOne(a);
    ForwardZero1(a);
    ForwardZero2(a);
    ForwardZero3(a);
  }

  lemma ForwardOne(a: octet)
    ensures Forward(Mul14(a), Mul9(a), Mul13(a), Mul11(a)) == a
  {}

  lemma ForwardZero1(a: octet)
    ensures Forward(Mul11(a), Mul14(a), Mul9(a), Mul13(a)) == 0
  {}

  lemma ForwardZero2(a: octet)
    ensures Forward(Mul13(a), Mul11(a), Mul14(a), Mul9(a)) == 0
  {}

  lemma ForwardZero3(a: octet)
    ensures Forward(Mul9(a), Mul13(a), Mul11(a), Mul14(a)) == 0
  {}

  lemma BackwardOne(a: octet)
    ensures Backward(Mul2(a), a, a, Mul3(a)) == a
  {}

  lemma BackwardZero1(a: octet)
    ensures Backward(Mul3(a), Mul2(a), a, a) == 0
  {}

  lemma BackwardZero2(a: octet)
    ensures Backward(a, Mul3(a), Mul2(a), a) == 0
  {}

  lemma BackwardZero3(a: octet)
    ensures Backward(a, a, Mul3(a), Mul2(a)) == 0
  {}

  lemma ForwardOfSums(
      p: (octet, octet, octet, octet), q: (octet, octet, octet, octet),
      r: (octet, octet, octet, octet), s: (octet, octet, octet, octet))
    ensures Forward(Sum4(p.0, p.1, p.2, p.3), Sum4(q.0, q.1, q.2, q.3),
                    Sum4(r.0, r.1, r.2, r.3), Sum4(s.0, s.1, s.2, s.3))
         == Sum4(Forward(p.0, q.0, r.0, s.0), Forward(p.1, q.1, r.1, s.1),
                 Forward(p.2, q.2, r.2, s.2), Forward(p.3, q.3, r.3, s.3))
  {
    Mul2Sum(p.0, p.1, p.2, p.3);
    Mul3Sum(q.0, q.1, q.2, q.3);
    Transpose((Mul2(p.0), Mul2(p.1), Mul2(p.2), Mul2(p.3)), (Mul3(q.0), Mul3(q.1), Mul3(q.2), Mul3(q.3)), r, s);
  }

  lemma BackwardOfSums(
      p: (octet, octet, octet, octet), q: (octet, octet, octet, octet),
      r: (octet, octet, octet, octet), s: (octet, octet, octet, octet))
    ensures Backward(Sum4(p.0, p.1, p.2, p.3), Sum4(q.0, q.1, q.2, q.3),
                     Sum4(r.0, r.1, r.2, r.3), Sum4(s.0, s.1, s.2, s.3))
         == Sum4(Backward(p.0, q.0, r.0, s.0), Backward(p.1, q.1, r.1, s.1),
                 Backward(p.2, q.2, r.2, s.2), Backward(p.3, q.3, r.3, s.3))
  {
    Mul14Sum(p.0, p.1, p.2, p.3);
    Mul11Sum(q.0, q.1, q.2, q.3);
    Mul13Sum(r.0, r.1, r.2, r.3);
    Mul9Sum(s.0, s.1, s.2, s.3);
    Transpose((Mul14(p.0), Mul14(p.1), Mul14(p.2), Mul14(p.3)), (Mul11(q.0), Mul11(q.1), Mul11(q.2), Mul11(q.3)),
              (Mul13(r.0), Mul13(r.1), Mul13(r.2), Mul13(r.3)), (Mul9(s.0), Mul9(s.1), Mul9(s.2), Mul9(s.3)));
  }

  /** MixColumns undoes InvMixColumns. */
  lemma ForwardBackward(a: octet, b: octet, c: octet, d: octet)
    ensures Forward(Backward(a, b, c, d), Backward(b, c, d, a), Backward(c, d, a, b), Backward(d, a, b, c)) == a
  {
    var q := (Mul9(a), Mul14(b), Mul11(c), Mul13(d));
    var r := (Mul13(a), Mul9(b), Mul14(c), Mul11(d));
    var s := (Mul11(a), Mul13(b), Mul9(c), Mul14(d));
    assert Backward(b, c, d, a) == Sum4(q.0, q.1, q.2, q.3) by { Rotations(q.0, q.1, q.2, q.3); }
    assert Backward(c, d, a, b) == Sum4(r.0, r.1, r.2, r.3) by { Rotations(r.0, r.1, r.2, r.3); }
    assert Backward(d, a, b, c) == Sum4(s.0, s.1, s.2, s.3) by { Rotations(s.0, s.1, s.2, s.3); }
    ForwardOfSums((Mul14(a), Mul11(b), Mul13(c), Mul9(d)), q, r, s);
    ForwardCoefficients(a);
    ForwardCoefficients(b);
    ForwardCoefficients(c);
    ForwardCoefficients(d);
    Zeros(a);
  }

  lemma Rotations(a: octet, b: octet, c: octet, d: octet)
    ensures Sum4(b, c, d, a) == Sum4(a, b, c, d) && Sum4(c, d, a, b) == Sum4(a, b, c, d)
            && Sum4(d, a, b, c) == Sum4(a, b, c, d)
  {
    Rotate(a, b, c, d);
    Rotate(b, c, d, a);
    Rotate(c, d, a, b);
  }

  /** InvMixColumns undoes MixColumns. */
  lemma BackwardForward(a: octet, b: octet, c: octet, d: octet)
    ensures Backward(Forward(a, b, c, d), Forward(b, c, d, a), Forward(c, d, a, b), Forward(d, a, b, c)) == a
  {
    var q := (a, Mul2(b), Mul3(c), d);
    var r := (a, b, Mul2(c), Mul3(d));
    var s := (Mul3(a), b, c, Mul2(d));
    assert Forward(b, c, d, a) == Sum4(q.0, q.1, q.2, q.3) by { Rotations(q.0, q.1, q.2, q.3); }
    assert Forward(c, d, a, b) == Sum4(r.0, r.1, r.2, r.3) by { Rotations(r.0, r.1, r.2, r.3); }
    assert Forward(d, a, b, c) == Sum4(s.0, s.1, s.2, s.3) by { Rotations(s.0, s.1, s.2, s.3); }
    BackwardOfSums((Mul2(a), Mul3(b), c, d), q, r, s);
    BackwardOne(a);
    BackwardZero1(b);
    BackwardZero2(c);
    BackwardZero3(d);
    Zeros(a);
  }

  /** A byte of InvMixColumns the way the program looks it up. */
  function Lookup(a: octet, b: octet, c: octet, d: octet): octet {
    XorByte(XorByte(XorByte(G14(a), G9(d)), G13(c)), G11(b))
  }

  lemma Reorder(p: octet, q: octet, r: octet, s: octet)
    ensures XorByte(XorByte(XorByte(p, s), r), q) == Sum4(p, q, r, s)
  {
    XorAssociates(XorByte(p, s), r, q);
    Swap(p, s, r, q);
    XorCommutes(s, q);
    Swap(p, r, q, s);
  }

  lemma LookupIs(a: octet, b: octet, c: octet, d: octet)
    ensures Lookup(a, b, c, d) == Backward(a, b, c, d)
  {
    Reorder(Mul14(a), Mul11(b), Mul13(c), Mul9(d));
    G14Is(a);
    G11Is(b);
    G13Is(c);
    G9Is(d);
  }
}
