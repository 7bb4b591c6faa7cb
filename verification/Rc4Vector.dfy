// A published vector of the cipher: under the key "Key" the keystream begins EB 9F 77,
// and "Plaintext" encrypts to BB F3 16 and so on. The 256 rounds of key scheduling are not
// run; a table of what they do is checked, and shown to determine the state they leave.
module Rc4Vector {
  import opened Bytes
  import opened DhCrypto
  import opened Rc4

  const KEY: string := "Key"

  // ---------------------------------------------------------------------------
  // The table
  // ---------------------------------------------------------------------------

  // Round n swaps entry n with entry J(n).
  function J(n: int): int {
    match n / 16
    case 0 => J0(n % 16)
    case 1 => J1(n % 16)
    case 2 => J2(n % 16)
    case 3 => J3(n % 16)
    case 4 => J4(n % 16)
    case 5 => J5(n % 16)
    case 6 => J6(n % 16)
    case 7 => J7(n % 16)
    case 8 => J8(n % 16)
    case 9 => J9(n % 16)
    case 10 => J10(n % 16)
    case 11 => J11(n % 16)
    case 12 => J12(n % 16)
    case 13 => J13(n % 16)
    case 14 => J14(n % 16)
    case _ => J15(n % 16)
  }

  function J0(c: int): int {
    match c case 0 => 75 case 1 => 177 case 2 => 44 case 3 => 122 case 4 => 227 case 5 => 97 case 6 => 178 case 7 => 30 case 8 => 159 case 9 => 243 case 10 => 98 case 11 => 230 case 12 => 61 case 13 => 175 case 14 => 54 case _ => 144
  }

  function J1(c: int): int {
    match c case 0 => 5 case 1 => 143 case 2 => 236 case 3 => 100 case 4 => 241 case 5 => 81 case 6 => 204 case 7 => 92 case 8 => 191 case 9 => 61 case 10 => 208 case 11 => 54 case 12 => 183 case 13 => 77 case 14 => 159 case _ => 35
  }

  function J2(c: int): int {
    match c case 0 => 188 case 1 => 40 case 2 => 175 case 3 => 71 case 4 => 182 case 5 => 64 case 6 => 223 case 7 => 81 case 8 => 215 case 9 => 121 case 10 => 238 case 11 => 126 case 12 => 249 case 13 => 113 case 14 => 4 case _ => 172
  }

  function J3(c: int): int {
    match c case 0 => 39 case 1 => 189 case 2 => 104 case 3 => 230 case 4 => 127 case 5 => 45 case 6 => 147 case 7 => 47 case 8 => 224 case 9 => 100 case 10 => 3 case 11 => 183 case 12 => 62 case 13 => 188 case 14 => 113 case _ => 251
  }

  function J4(c: int): int {
    match c case 0 => 133 case 1 => 63 case 2 => 204 case 3 => 116 case 4 => 49 case 5 => 193 case 6 => 108 case 7 => 4 case 8 => 151 case 9 => 69 case 10 => 8 case 11 => 83 case 12 => 4 case 13 => 154 case 14 => 51 case _ => 231
  }

  function J5(c: int): int {
    match c case 0 => 176 case 1 => 34 case 2 => 217 case 3 => 82 case 4 => 241 case 5 => 171 case 6 => 122 case 7 => 28 case 8 => 217 case 9 => 171 case 10 => 80 case 11 => 16 case 12 => 160 case 13 => 72 case 14 => 11 case _ => 227
  }

  function J6(c: int): int {
    match c case 0 => 142 case 1 => 248 case 2 => 123 case 3 => 41 case 4 => 199 case 5 => 165 case 6 => 86 case 7 => 34 case 8 => 205 case 9 => 129 case 10 => 80 case 11 => 52 case 12 => 197 case 13 => 151 case 14 => 126 case _ => 56
  }

  function J7(c: int): int {
    match c case 0 => 13 case 1 => 194 case 2 => 127 case 3 => 87 case 4 => 19 case 5 => 211 case 6 => 174 case 7 => 158 case 8 => 97 case 9 => 239 case 10 => 190 case 11 => 19 case 12 => 244 case 13 => 234 case 14 => 163 case _ => 122
  }

  function J8(c: int): int {
    match c case 0 => 115 case 1 => 39 case 2 => 14 case 3 => 10 case 4 => 217 case 5 => 99 case 6 => 98 case 7 => 52 case 8 => 33 case 9 => 35 case 10 => 248 case 11 => 232 case 12 => 237 case 13 => 197 case 14 => 138 case _ => 20
  }

  function J9(c: int): int {
    match c case 0 => 110 case 1 => 100 case 2 => 111 case 3 => 213 case 4 => 206 case 5 => 220 case 6 => 189 case 7 => 143 case 8 => 160 case 9 => 132 case 10 => 6 case 11 => 26 case 12 => 1 case 13 => 3 case 14 => 243 case _ => 69
  }

  function J10(c: int): int {
    match c case 0 => 66 case 1 => 92 case 2 => 73 case 3 => 28 case 4 => 57 case 5 => 233 case 6 => 244 case 7 => 20 case 8 => 7 case 9 => 21 case 10 => 56 case 11 => 220 case 12 => 112 case 13 => 150 case 14 => 87 case _ => 222
  }

  function J11(c: int): int {
    match c case 0 => 167 case 1 => 243 case 2 => 94 case 3 => 138 case 4 => 137 case 5 => 163 case 6 => 64 case 7 => 198 case 8 => 227 case 9 => 21 case 10 => 26 case 11 => 58 case 12 => 204 case 13 => 173 case 14 => 104 case _ => 249
  }

  function J12(c: int): int {
    match c case 0 => 4 case 1 => 174 case 2 => 99 case 3 => 113 case 4 => 154 case 5 => 160 case 6 => 38 case 7 => 196 case 8 => 5 case 9 => 25 case 10 => 72 case 11 => 140 case 12 => 240 case 13 => 135 case 14 => 148 case _ => 174
  }

  function J13(c: int): int {
    match c case 0 => 45 case 1 => 119 case 2 => 148 case 3 => 110 case 4 => 187 case 5 => 33 case 6 => 92 case 7 => 246 case 8 => 25 case 9 => 2 case 10 => 85 case 11 => 123 case 12 => 57 case 13 => 143 case 14 => 252 case _ => 135
  }

  function J14(c: int): int {
    match c case 0 => 56 case 1 => 100 case 2 => 171 case 3 => 220 case 4 => 11 case 5 => 85 case 6 => 1 case 7 => 155 case 8 => 139 case 9 => 105 case 10 => 49 case 11 => 129 case 12 => 12 case 13 => 227 case 14 => 114 case _ => 20
  }

  function J15(c: int): int {
    match c case 0 => 120 case 1 => 49 case 2 => 156 case 3 => 232 case 4 => 243 case 5 => 97 case 6 => 205 case 7 => 41 case 8 => 44 case 9 => 143 case 10 => 238 case 11 => 166 case 12 => 19 case 13 => 117 case 14 => 236 case _ => 54
  }

  // Entry n holds V(n) when its round comes.
  function V(n: int): int {
    match n / 16
    case 0 => V0(n % 16)
    case 1 => V1(n % 16)
    case 2 => V2(n % 16)
    case 3 => V3(n % 16)
    case 4 => V4(n % 16)
    case 5 => V5(n % 16)
    case 6 => V6(n % 16)
    case 7 => V7(n % 16)
    case 8 => V8(n % 16)
    case 9 => V9(n % 16)
    case 10 => V10(n % 16)
    case 11 => V11(n % 16)
    case 12 => V12(n % 16)
    case 13 => V13(n % 16)
    case 14 => V14(n % 16)
    case _ => V15(n % 16)
  }

  function V0(c: int): int {
    match c case 0 => 0 case 1 => 1 case 2 => 2 case 3 => 3 case 4 => 4 case 5 => 5 case 6 => 6 case 7 => 7 case 8 => 8 case 9 => 9 case 10 => 10 case 11 => 11 case 12 => 12 case 13 => 13 case 14 => 14 case _ => 15
  }

  function V1(c: int): int {
    match c case 0 => 16 case 1 => 17 case 2 => 18 case 3 => 19 case 4 => 20 case 5 => 21 case 6 => 22 case 7 => 23 case 8 => 24 case 9 => 25 case 10 => 26 case 11 => 27 case 12 => 28 case 13 => 29 case 14 => 7 case _ => 31
  }

  function V2(c: int): int {
    match c case 0 => 32 case 1 => 33 case 2 => 34 case 3 => 31 case 4 => 36 case 5 => 37 case 6 => 38 case 7 => 39 case 8 => 33 case 9 => 41 case 10 => 42 case 11 => 43 case 12 => 2 case 13 => 45 case 14 => 46 case _ => 47
  }

  function V3(c: int): int {
    match c case 0 => 48 case 1 => 49 case 2 => 50 case 3 => 51 case 4 => 52 case 5 => 53 case 6 => 27 case 7 => 55 case 8 => 56 case 9 => 57 case 10 => 58 case 11 => 59 case 12 => 60 case 13 => 25 case 14 => 60 case _ => 63
  }

  function V4(c: int): int {
    match c case 0 => 37 case 1 => 65 case 2 => 66 case 3 => 67 case 4 => 68 case 5 => 69 case 6 => 70 case 7 => 31 case 8 => 72 case 9 => 73 case 10 => 74 case 11 => 0 case 12 => 76 case 13 => 29 case 14 => 78 case _ => 79
  }

  function V5(c: int): int {
    match c case 0 => 80 case 1 => 39 case 2 => 82 case 3 => 0 case 4 => 84 case 5 => 85 case 6 => 86 case 7 => 87 case 8 => 88 case 9 => 89 case 10 => 90 case 11 => 91 case 12 => 23 case 13 => 93 case 14 => 94 case _ => 95
  }

  function V6(c: int): int {
    match c case 0 => 96 case 1 => 5 case 2 => 10 case 3 => 99 case 4 => 57 case 5 => 101 case 6 => 102 case 7 => 103 case 8 => 50 case 9 => 105 case 10 => 106 case 11 => 107 case 12 => 70 case 13 => 109 case 14 => 110 case _ => 111
  }

  function V7(c: int): int {
    match c case 0 => 112 case 1 => 60 case 2 => 114 case 3 => 115 case 4 => 67 case 5 => 117 case 6 => 118 case 7 => 119 case 8 => 120 case 9 => 41 case 10 => 86 case 11 => 10 case 12 => 124 case 13 => 125 case 14 => 110 case _ => 114
  }

  function V8(c: int): int {
    match c case 0 => 128 case 1 => 105 case 2 => 130 case 3 => 131 case 4 => 132 case 5 => 37 case 6 => 134 case 7 => 135 case 8 => 136 case 9 => 137 case 10 => 138 case 11 => 139 case 12 => 140 case 13 => 141 case 14 => 96 case _ => 17
  }

  function V9(c: int): int {
    match c case 0 => 15 case 1 => 145 case 2 => 146 case 3 => 27 case 4 => 148 case 5 => 149 case 6 => 150 case 7 => 109 case 8 => 152 case 9 => 153 case 10 => 29 case 11 => 155 case 12 => 156 case 13 => 157 case 14 => 119 case _ => 7
  }

  function V10(c: int): int {
    match c case 0 => 152 case 1 => 161 case 2 => 162 case 3 => 110 case 4 => 164 case 5 => 101 case 6 => 166 case 7 => 167 case 8 => 168 case 9 => 169 case 10 => 170 case 11 => 89 case 12 => 47 case 13 => 173 case 14 => 118 case _ => 34
  }

  function V11(c: int): int {
    match c case 0 => 80 case 1 => 1 case 2 => 6 case 3 => 179 case 4 => 180 case 5 => 181 case 6 => 36 case 7 => 59 case 8 => 184 case 9 => 185 case 10 => 186 case 11 => 187 case 12 => 25 case 13 => 150 case 14 => 86 case _ => 24
  }

  function V12(c: int): int {
    match c case 0 => 192 case 1 => 69 case 2 => 60 case 3 => 195 case 4 => 196 case 5 => 141 case 6 => 59 case 7 => 57 case 8 => 200 case 9 => 201 case 10 => 202 case 11 => 203 case 12 => 25 case 13 => 50 case 14 => 148 case _ => 207
  }

  function V13(c: int): int {
    match c case 0 => 26 case 1 => 209 case 2 => 210 case 3 => 117 case 4 => 212 case 5 => 27 case 6 => 214 case 7 => 33 case 8 => 216 case 9 => 132 case 10 => 218 case 11 => 219 case 12 => 89 case 13 => 221 case 14 => 34 case _ => 38
  }

  function V14(c: int): int {
    match c case 0 => 56 case 1 => 225 case 2 => 226 case 3 => 184 case 4 => 228 case 5 => 229 case 6 => 51 case 7 => 79 case 8 => 139 case 9 => 101 case 10 => 125 case 11 => 235 case 12 => 18 case 13 => 140 case 14 => 42 case _ => 41
  }

  function V15(c: int): int {
    match c case 0 => 25 case 1 => 84 case 2 => 242 case 3 => 1 case 4 => 166 case 5 => 245 case 6 => 33 case 7 => 247 case 8 => 138 case 9 => 24 case 10 => 250 case 11 => 63 case 12 => 34 case 13 => 253 case 14 => 254 case _ => 255
  }

  // It was last swapped in round L(n), or never if that is -1.
  function L(n: int): int {
    match n / 16
    case 0 => L0(n % 16)
    case 1 => L1(n % 16)
    case 2 => L2(n % 16)
    case 3 => L3(n % 16)
    case 4 => L4(n % 16)
    case 5 => L5(n % 16)
    case 6 => L6(n % 16)
    case 7 => L7(n % 16)
    case 8 => L8(n % 16)
    case 9 => L9(n % 16)
    case 10 => L10(n % 16)
    case 11 => L11(n % 16)
    case 12 => L12(n % 16)
    case 13 => L13(n % 16)
    case 14 => L14(n % 16)
    case _ => L15(n % 16)
  }

  function L0(c: int): int {
    match c case 0 => -1 case 1 => -1 case 2 => -1 case 3 => -1 case 4 => -1 case 5 => -1 case 6 => -1 case 7 => -1 case 8 => -1 case 9 => -1 case 10 => -1 case 11 => -1 case 12 => -1 case 13 => -1 case 14 => -1 case _ => -1
  }

  function L1(c: int): int {
    match c case 0 => -1 case 1 => -1 case 2 => -1 case 3 => -1 case 4 => -1 case 5 => -1 case 6 => -1 case 7 => -1 case 8 => -1 case 9 => -1 case 10 => -1 case 11 => -1 case 12 => -1 case 13 => -1 case 14 => 7 case _ => -1
  }

  function L2(c: int): int {
    match c case 0 => -1 case 1 => -1 case 2 => -1 case 3 => 31 case 4 => -1 case 5 => -1 case 6 => -1 case 7 => -1 case 8 => 33 case 9 => -1 case 10 => -1 case 11 => -1 case 12 => 2 case 13 => -1 case 14 => -1 case _ => -1
  }

  function L3(c: int): int {
    match c case 0 => -1 case 1 => -1 case 2 => -1 case 3 => -1 case 4 => -1 case 5 => -1 case 6 => 27 case 7 => -1 case 8 => -1 case 9 => -1 case 10 => -1 case 11 => -1 case 12 => -1 case 13 => 25 case 14 => 60 case _ => -1
  }

  function L4(c: int): int {
    match c case 0 => 37 case 1 => -1 case 2 => -1 case 3 => -1 case 4 => -1 case 5 => -1 case 6 => -1 case 7 => 35 case 8 => -1 case 9 => -1 case 10 => -1 case 11 => 0 case 12 => -1 case 13 => 29 case 14 => -1 case _ => -1
  }

  function L5(c: int): int {
    match c case 0 => -1 case 1 => 39 case 2 => -1 case 3 => 75 case 4 => -1 case 5 => -1 case 6 => -1 case 7 => -1 case 8 => -1 case 9 => -1 case 10 => -1 case 11 => -1 case 12 => 23 case 13 => -1 case 14 => -1 case _ => -1
  }

  function L6(c: int): int {
    match c case 0 => -1 case 1 => 5 case 2 => 10 case 3 => -1 case 4 => 57 case 5 => -1 case 6 => -1 case 7 => -1 case 8 => 50 case 9 => -1 case 10 => -1 case 11 => -1 case 12 => 70 case 13 => -1 case 14 => -1 case _ => -1
  }

  function L7(c: int): int {
    match c case 0 => -1 case 1 => 62 case 2 => -1 case 3 => -1 case 4 => 67 case 5 => -1 case 6 => -1 case 7 => -1 case 8 => -1 case 9 => 41 case 10 => 86 case 11 => 98 case 12 => -1 case 13 => -1 case 14 => 110 case _ => 114
  }

  function L8(c: int): int {
    match c case 0 => -1 case 1 => 105 case 2 => -1 case 3 => -1 case 4 => -1 case 5 => 64 case 6 => -1 case 7 => -1 case 8 => -1 case 9 => -1 case 10 => -1 case 11 => -1 case 12 => -1 case 13 => -1 case 14 => 96 case _ => 17
  }

  function L9(c: int): int {
    match c case 0 => 15 case 1 => -1 case 2 => -1 case 3 => 54 case 4 => -1 case 5 => -1 case 6 => -1 case 7 => 109 case 8 => -1 case 9 => -1 case 10 => 77 case 11 => -1 case 12 => -1 case 13 => -1 case 14 => 119 case _ => 30
  }

  function L10(c: int): int {
    match c case 0 => 152 case 1 => -1 case 2 => -1 case 3 => 126 case 4 => -1 case 5 => 101 case 6 => -1 case 7 => -1 case 8 => -1 case 9 => -1 case 10 => -1 case 11 => 89 case 12 => 47 case 13 => -1 case 14 => 118 case _ => 34
  }

  function L11(c: int): int {
    match c case 0 => 80 case 1 => 1 case 2 => 6 case 3 => -1 case 4 => -1 case 5 => -1 case 6 => 36 case 7 => 59 case 8 => -1 case 9 => -1 case 10 => -1 case 11 => -1 case 12 => 61 case 13 => 150 case 14 => 122 case _ => 24
  }

  function L12(c: int): int {
    match c case 0 => -1 case 1 => 69 case 2 => 113 case 3 => -1 case 4 => -1 case 5 => 141 case 6 => 183 case 7 => 100 case 8 => -1 case 9 => -1 case 10 => -1 case 11 => -1 case 12 => 188 case 13 => 104 case 14 => 148 case _ => -1
  }

  function L13(c: int): int {
    match c case 0 => 26 case 1 => -1 case 2 => -1 case 3 => 117 case 4 => -1 case 5 => 147 case 6 => -1 case 7 => 40 case 8 => -1 case 9 => 132 case 10 => -1 case 11 => -1 case 12 => 171 case 13 => -1 case 14 => 175 case _ => 38
  }

  function L14(c: int): int {
    match c case 0 => 56 case 1 => -1 case 2 => -1 case 3 => 184 case 4 => -1 case 5 => -1 case 6 => 51 case 7 => 79 case 8 => 139 case 9 => 165 case 10 => 125 case 11 => -1 case 12 => 18 case 13 => 140 case 14 => 42 case _ => 121
  }

  function L15(c: int): int {
    match c case 0 => 204 case 1 => 84 case 2 => -1 case 3 => 177 case 4 => 166 case 5 => -1 case 6 => 215 case 7 => -1 case 8 => 138 case 9 => 191 case 10 => -1 case 11 => 63 case 12 => 222 case 13 => -1 case 14 => -1 case _ => -1
  }

  // Row n of the table follows from the rows before it.
  predicate Checked(n: int) {
    && 0 <= J(n) < N && 0 <= V(n) < N
    && (L(n) == -1 || (0 <= L(n) < n && J(L(n)) == n)) && (forall m :: L(n) < m < n ==> J(m) != n)
    && V(n) == (if L(n) == -1 then n else V(L(n)))
    && J(n) == ((if n == 0 then 0 else J(n - 1)) + V(n) + KEY[n % 3] as int) % N
  }

  lemma EntriesAreInRange(n: int)
    requires 0 <= n < N
    ensures 0 <= J(n) < N && 0 <= V(n) < N
  {}

  lemma LastSwapIsThere(n: int)
    requires 0 <= n < N
    ensures L(n) == -1 || (0 <= L(n) < n && J(L(n)) == n)
  {}

  lemma FirstSwapIsLast(n: int, m: int)
    requires 0 <= n < 64 && L(n) < m < n && 0 <= m
    ensures J(m) != n
  {}

  lemma SecondSwapIsLast(n: int, m: int)
    requires 64 <= n < 128 && L(n) < m < n && 0 <= m
    ensures J(m) != n
  {}

  lemma ThirdSwapIsLast(n: int, m: int)
    requires 128 <= n < 192 && L(n) < m < n && 0 <= m
    ensures J(m) != n
  {}

  lemma FourthSwapIsLast(n: int, m: int)
    requires 192 <= n < 256 && L(n) < m < n && 0 <= m
    ensures J(m) != n
  {}

  lemma EarlyValueIsTheOneSwapped(n: int)
    requires 0 <= n < 128
    ensures V(n) == if L(n) == -1 then n else V(L(n))
  {}

  lemma LateValueIsTheOneSwapped(n: int)
    requires 128 <= n < N
    ensures V(n) == if L(n) == -1 then n else V(L(n))
  {}

  lemma Sums0(n: int)
    requires 1 <= n < 16
    ensures J(n) == (J(n - 1) + V(n) + KEY[n % 3] as int) % N
  {}

  lemma Sums1(n: int)
    requires 16 <= n < 32
    ensures J(n) == (J(n - 1) + V(n) + KEY[n % 3] as int) % N
  {}

  lemma Sums2(n: int)
    requires 32 <= n < 48
    ensures J(n) == (J(n - 1) + V(n) + KEY[n % 3] as int) % N
  {}

  lemma Sums3(n: int)
    requires 48 <= n < 64
    ensures J(n) == (J(n - 1) + V(n) + KEY[n % 3] as int) % N
  {}

  lemma Sums4(n: int)
    requires 64 <= n < 80
    ensures J(n) == (J(n - 1) + V(n) + KEY[n % 3] as int) % N
  {}

  lemma Sums5(n: int)
    requires 80 <= n < 96
    ensures J(n) == (J(n - 1) + V(n) + KEY[n % 3] as int) % N
  {}

  lemma Sums6(n: int)
    requires 96 <= n < 112
    ensures J(n) == (J(n - 1) + V(n) + KEY[n % 3] as int) % N
  {}

  lemma Sums7(n: int)
    requires 112 <= n < 128
    ensures J(n) == (J(n - 1) + V(n) + KEY[n % 3] as int) % N
  {}

  lemma Sums8(n: int)
    requires 128 <= n < 144
    ensures J(n) == (J(n - 1) + V(n) + KEY[n % 3] as int) % N
  {}

  lemma Sums9(n: int)
    requires 144 <= n < 160
    ensures J(n) == (J(n - 1) + V(n) + KEY[n % 3] as int) % N
  {}

  lemma Sums10(n: int)
    requires 160 <= n < 176
    ensures J(n) == (J(n - 1) + V(n) + KEY[n % 3] as int) % N
  {}

  lemma Sums11(n: int)
    requires 176 <= n < 192
    ensures J(n) == (J(n - 1) + V(n) + KEY[n % 3] as int) % N
  {}

  lemma Sums12(n: int)
    requires 192 <= n < 208
    ensures J(n) == (J(n - 1) + V(n) + KEY[n % 3] as int) % N
  {}

  lemma Sums13(n: int)
    requires 208 <= n < 224
    ensures J(n) == (J(n - 1) + V(n) + KEY[n % 3] as int) % N
  {}

  lemma Sums14(n: int)
    requires 224 <= n < 240
    ensures J(n) == (J(n - 1) + V(n) + KEY[n % 3] as int) % N
  {}

  lemma Sums15(n: int)
    requires 240 <= n < 256
    ensures J(n) == (J(n - 1) + V(n) + KEY[n % 3] as int) % N
  {}

  lemma SumsAreRight(n: int)
    requires 0 < n < N
    ensures J(n) == (J(n - 1) + V(n) + KEY[n % 3] as int) % N
  {
    hide J, V;
    match n / 16
    case 0 => Sums0(n);
    case 1 => Sums1(n);
    case 2 => Sums2(n);
    case 3 => Sums3(n);
    case 4 => Sums4(n);
    case 5 => Sums5(n);
    case 6 => Sums6(n);
    case 7 => Sums7(n);
    case 8 => Sums8(n);
    case 9 => Sums9(n);
    case 10 => Sums10(n);
    case 11 => Sums11(n);
    case 12 => Sums12(n);
    case 13 => Sums13(n);
    case 14 => Sums14(n);
    case _ => Sums15(n);
  }

  lemma TableIsChecked(n: int)
    requires 0 <= n < N
    ensures Checked(n)
  {
    hide J, V, L;
    EntriesAreInRange(n);
    LastSwapIsThere(n);
    if n < 128 {
      EarlyValueIsTheOneSwapped(n);
    } else {
      LateValueIsTheOneSwapped(n);
    }
    if n > 0 {
      SumsAreRight(n);
    } else {
      FirstRow();
    }
    forall m | L(n) < m < n
      ensures J(m) != n
    {
      match n / 64
      case 0 => FirstSwapIsLast(n, m);
      case 1 => SecondSwapIsLast(n, m);
      case 2 => ThirdSwapIsLast(n, m);
      case _ => FourthSwapIsLast(n, m);
    }
  }

  lemma FirstRow()
    ensures J(0) == (V(0) + KEY[0] as int) % N
  {}

  // ---------------------------------------------------------------------------
  // The state it leaves
  // ---------------------------------------------------------------------------

  // The last of the first n rounds that swapped with entry p, or -1.
  function LastHit(p: int, n: nat): int {
    if n == 0 then -1 else if J(n - 1) == p then n - 1 else LastHit(p, n - 1)
  }

  lemma {:induction false} LastHitIsLast(p: int, n: nat)
    ensures var m := LastHit(p, n);
            -1 <= m < n && (m >= 0 ==> J(m) == p) && forall k :: m < k < n ==> J(k) != p
  {
    hide J;
    if n > 0 {
      LastHitIsLast(p, n - 1);
    }
  }

  // What entry p holds after n rounds: as swapped there last, by its own round or another.
  function ValueAt(p: int, n: nat): int
    decreases n
  {
    var m := LastHit(p, n);
    if m >= p || p >= n then if m == -1 then p else V(m)
    else if p >= 0 then ValueAt(J(p), p) else 0
  }

  // The state is the one the table gives after n rounds.
  predicate Matches(S: seq<int>, n: nat) {
    IsState(S) && forall p :: 0 <= p < N ==> S[p] == ValueAt(p, n)
  }

  lemma OneRound(n: nat, S: seq<int>)
    requires n < N && Matches(S, n) && Checked(n)
    ensures S[n] == V(n) && Matches(Swap(S, n, J(n)), n + 1)
  {
    hide J, V, L;
    LastHitIsLast(n, n);
    assert LastHit(n, n) == L(n);
    forall p | 0 <= p < N
      ensures Swap(S, n, J(n))[p] == ValueAt(p, n + 1)
    {
      LastHitIsLast(p, n);
      assert LastHit(p, n + 1) == if J(n) == p then n else LastHit(p, n);
    }
  }

  lemma BeforeFirstRound(p: int)
    ensures ValueAt(p, 0) == p
  {
    hide J, V;
  }

  // Round n of the schedule does what row n of the table says.
  lemma RowIsRound(n: nat)
    requires n < N && Schedule(KEY, n).1 == (if n == 0 then 0 else J(n - 1))
    requires Matches(Schedule(KEY, n).0, n)
    ensures Schedule(KEY, n + 1).1 == J(n) && Matches(Schedule(KEY, n + 1).0, n + 1)
  {
    hide J, V, L, ValueAt, Swap, Matches;
    TableIsChecked(n);
    OneRound(n, Schedule(KEY, n).0);
  }

  lemma {:induction false} TableIsSchedule(n: nat)
    requires n <= N
    ensures Schedule(KEY, n).1 == if n == 0 then 0 else J(n - 1)
    ensures Matches(Schedule(KEY, n).0, n)
  {
    hide J, V, L, ValueAt;
    if n > 0 {
      hide Schedule, Matches;
      TableIsSchedule(n - 1);
      RowIsRound(n - 1);
    } else {
      forall p | 0 <= p < N
        ensures Identity()[p] == ValueAt(p, 0)
      {
        BeforeFirstRound(p);
      }
    }
  }

  lemma LastHitIs(p: int, n: nat, m: int)
    requires m == -1 || (0 <= m < n && J(m) == p)
    requires forall k :: m < k < n ==> J(k) != p
    ensures LastHit(p, n) == m
  {
    hide J, LastHit;
    LastHitIsLast(p, n);
  }

  lemma LastHitOf1()
    ensures LastHit(1, N) == 230 && V(230) == 51
  {
    LastHitIs(1, N, 230);
  }

  lemma LastHitOf51()
    ensures LastHit(51, N) == 78 && V(78) == 78
  {
    LastHitIs(51, N, 78);
  }

  lemma LastHitOf129()
    ensures LastHit(129, N) == 235 && V(235) == 235
  {
    LastHitIs(129, N, 235);
  }

  lemma LastHitOf2()
    ensures LastHit(2, N) == 217 && V(217) == 132
  {
    LastHitIs(2, N, 217);
  }

  lemma LastHitOf183()
    ensures LastHit(183, N) == 59 && J(183) == 198
  {
    LastHitIs(183, N, 59);
  }

  lemma LastHitOf198()
    ensures LastHit(198, 183) == -1
  {
    LastHitIs(198, 183, -1);
  }

  lemma LastHitOf74()
    ensures LastHit(74, N) == -1 && J(74) == 8
  {
    LastHitIs(74, N, -1);
  }

  lemma LastHitOf8()
    ensures LastHit(8, 74) == -1 && J(8) == 159
  {
    LastHitIs(8, 74, -1);
  }

  lemma LastHitOf159()
    ensures LastHit(159, 8) == -1
  {
    LastHitIs(159, 8, -1);
  }

  lemma LastHitOf3()
    ensures LastHit(3, N) == 157 && V(157) == 157
  {
    LastHitIs(3, N, 157);
  }

  lemma LastHitOf84()
    ensures LastHit(84, N) == -1 && J(84) == 241
  {
    LastHitIs(84, N, -1);
  }

  lemma LastHitOf241()
    ensures LastHit(241, 84) == 20 && V(20) == 20
  {
    LastHitIs(241, 84, 20);
  }

  lemma LastHitOf177()
    ensures LastHit(177, N) == 1 && J(177) == 243
  {
    LastHitIs(177, N, 1);
  }

  lemma LastHitOf243()
    ensures LastHit(243, 177) == 158 && V(158) == 119
  {
    LastHitIs(243, 177, 158);
  }

  lemma EntriesOfKey()
    ensures ValueAt(1, N) == 51
    ensures ValueAt(51, N) == 78
    ensures ValueAt(129, N) == 235
    ensures ValueAt(2, N) == 132
    ensures ValueAt(183, N) == 198
    ensures ValueAt(74, N) == 159
    ensures ValueAt(3, N) == 157
    ensures ValueAt(84, N) == 20
    ensures ValueAt(177, N) == 119
  {
    hide J, V, LastHit;
    LastHitOf1();
    LastHitOf51();
    LastHitOf129();
    LastHitOf2();
    LastHitOf183();
    LastHitOf198();
    assert ValueAt(198, 183) == 198;
    LastHitOf74();
    LastHitOf8();
    LastHitOf159();
    assert ValueAt(159, 8) == 159;
    assert ValueAt(8, 74) == 159;
    LastHitOf3();
    LastHitOf84();
    LastHitOf241();
    assert ValueAt(241, 84) == 20;
    LastHitOf177();
    LastHitOf243();
    assert ValueAt(243, 177) == 119;
  }

  // A step that swaps two different entries, and outputs a third.
  lemma StepOutputs(S: seq<int>, i: int, j: int, j': int, k: int)
    requires IsState(S) && 0 <= i < N - 1 && 0 <= j < N && j' == (j + S[i + 1]) % N
    requires k == (S[i + 1] + S[j']) % N && k != i + 1 && k != j'
    ensures Step(Generator(S, i, j)) == Generator(Swap(S, i + 1, j'), i + 1, j')
    ensures Output(Generator(Swap(S, i + 1, j'), i + 1, j')) == S[k]
  {}

  lemma ThreeOutputs(S: seq<int>)
    requires IsState(S)
    requires S[1] == 51 && S[51] == 78 && S[129] == 235
    requires S[2] == 132 && S[183] == 198 && S[74] == 159
    requires S[3] == 157 && S[84] == 20 && S[177] == 119
    ensures var first := Step(Generator(S, 0, 0));
            Output(first) == 0xEB && Output(Step(first)) == 0x9F && Output(Step(Step(first))) == 0x77
  {
    hide Step, Output;
    var S1 := Swap(S, 1, 51);
    var S2 := Swap(S1, 2, 183);
    StepOutputs(S, 0, 0, 51, 129);
    StepOutputs(S1, 1, 51, 183, 74);
    StepOutputs(S2, 2, 183, 84, 177);
  }

  // The keystream of the vector begins with these bytes.
  lemma KeystreamOfKey()
    ensures KeyByte(KEY, 0) == 0xEB && KeyByte(KEY, 1) == 0x9F && KeyByte(KEY, 2) == 0x77
  {
    hide ValueAt, J, Step, Output, Schedule;
    TableIsSchedule(N);
    EntriesOfKey();
    ThreeOutputs(Schedule(KEY, N).0);
    KeyByteFromGenerator(KEY, 0);
    KeyByteFromGenerator(KEY, 1);
    KeyByteFromGenerator(KEY, 2);
  }

  // The plaintext of the vector begins "Pla".
  lemma PlaintextUnderKey()
    ensures Crypt([0x50, 0x6C, 0x61], KEY) == [0xBB, 0xF3, 0x16]
  {
    KeystreamOfKey();
    hide KeyByte;
    XorOfVector();
  }

  lemma XorOfVector()
    ensures Xor(0x50, 0xEB) == 0xBB && Xor(0x6C, 0x9F) == 0xF3 && Xor(0x61, 0x77) == 0x16
  {}
}
