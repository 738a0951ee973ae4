/** The twelve parity-check prototypes of IEEE Std 802.11-2024, Annex F, row by row as the
    source lists them (-1 for the null block), and the structure all of them share. */
module AnnexF {
  import opened Params
  import opened LdpcCode
  import opened LdpcEncoder

  function F1R12(bi: nat): seq<int>
    requires bi < 12
  {
    match bi
    case 0 => [0, -1, -1, -1, 0, 0, -1, -1, 0, -1, -1, 0, 1, 0, -1, -1, -1, -1, -1, -1, -1, -1, -1, -1]
    case 1 => [22, 0, -1, -1, 17, -1, 0, 0, 12, -1, -1, -1, -1, 0, 0, -1, -1, -1, -1, -1, -1, -1, -1, -1]
    case 2 => [6, -1, 0, -1, 10, -1, -1, -1, 24, -1, 0, -1, -1, -1, 0, 0, -1, -1, -1, -1, -1, -1, -1, -1]
    case 3 => [2, -1, -1, 0, 20, -1, -1, -1, 25, 0, -1, -1, -1, -1, -1, 0, 0, -1, -1, -1, -1, -1, -1, -1]
    case 4 => [23, -1, -1, -1, 3, -1, -1, -1, 0, -1, 9, 11, -1, -1, -1, -1, 0, 0, -1, -1, -1, -1, -1, -1]
    case 5 => [24, -1, 23, 1, 17, -1, 3, -1, 10, -1, -1, -1, -1, -1, -1, -1, -1, 0, 0, -1, -1, -1, -1, -1]
    case 6 => [25, -1, -1, -1, 8, -1, -1, -1, 7, 18, -1, -1, 0, -1, -1, -1, -1, -1, 0, 0, -1, -1, -1, -1]
    case 7 => [13, 24, -1, -1, 0, -1, 8, -1, 6, -1, -1, -1, -1, -1, -1, -1, -1, -1, -1, 0, 0, -1, -1, -1]
    case 8 => [7, 20, -1, 16, 22, 10, -1, -1, 23, -1, -1, -1, -1, -1, -1, -1, -1, -1, -1, -1, 0, 0, -1, -1]
    case 9 => [11, -1, -1, -1, 19, -1, -1, -1, 13, -1, 3, 17, -1, -1, -1, -1, -1, -1, -1, -1, -1, 0, 0, -1]
    case 10 => [25, -1, 8, -1, 23, 18, -1, 14, 9, -1, -1, -1, -1, -1, -1, -1, -1, -1, -1, -1, -1, -1, 0, 0]
    case _ => [3, -1, -1, -1, 16, -1, -1, 2, 25, 5, -1, -1, 1, -1, -1, -1, -1, -1, -1, -1, -1, -1, -1, 0]
  }

  function F1R23(bi: nat): seq<int>
    requires bi < 8
  {
    match bi
    case 0 => [25, 26, 14, -1, 20, -1, 2, -1, 4, -1, -1, 8, -1, 16, -1, 18, 1, 0, -1, -1, -1, -1, -1, -1]
    case 1 => [10, 9, 15, 11, -1, 0, -1, 1, -1, -1, 18, -1, 8, -1, 10, -1, -1, 0, 0, -1, -1, -1, -1, -1]
    case 2 => [16, 2, 20, 26, 21, -1, 6, -1, 1, 26, -1, 7, -1, -1, -1, -1, -1, -1, 0, 0, -1, -1, -1, -1]
    case 3 => [10, 13, 5, 0, -1, 3, -1, 7, -1, -1, 26, -1, -1, 13, -1, 16, -1, -1, -1, 0, 0, -1, -1, -1]
    case 4 => [23, 14, 24, -1, 12, -1, 19, -1, 17, -1, -1, -1, 20, -1, 21, -1, 0, -1, -1, -1, 0, 0, -1, -1]
    case 5 => [6, 22, 9, 20, -1, 25, -1, 17, -1, 8, -1, 14, -1, 18, -1, -1, -1, -1, -1, -1, -1, 0, 0, -1]
    case 6 => [14, 23, 21, 11, 20, -1, 24, -1, 18, -1, 19, -1, -1, -1, -1, 22, -1, -1, -1, -1, -1, -1, 0, 0]
    case _ => [17, 11, 11, 20, -1, 21, -1, 26, -1, 3, -1, -1, 18, -1, 26, -1, 1, -1, -1, -1, -1, -1, -1, 0]
  }

  function F1R34(bi: nat): seq<int>
    requires bi < 6
  {
    match bi
    case 0 => [16, 17, 22, 24, 9, 3, 14, -1, 4, 2, 7, -1, 26, -1, 2, -1, 21, -1, 1, 0, -1, -1, -1, -1]
    case 1 => [25, 12, 12, 3, 3, 26, 6, 21, -1, 15, 22, -1, 15, -1, 4, -1, -1, 16, -1, 0, 0, -1, -1, -1]
    case 2 => [25, 18, 26, 16, 22, 23, 9, -1, 0, -1, 4, -1, 4, -1, 8, 23, 11, -1, -1, -1, 0, 0, -1, -1]
    case 3 => [9, 7, 0, 1, 17, -1, -1, 7, 3, -1, 3, 23, -1, 16, -1, -1, 21, -1, 0, -1, -1, 0, 0, -1]
    case 4 => [24, 5, 26, 7, 1, -1, -1, 15, 24, 15, -1, 8, -1, 13, -1, 13, -1, 11, -1, -1, -1, -1, 0, 0]
    case _ => [2, 2, 19, 14, 24, 1, 15, 19, -1, 21, -1, 2, -1, 24, -1, 3, -1, 2, 1, -1, -1, -1, -1, 0]
  }

  function F1R56(bi: nat): seq<int>
    requires bi < 4
  {
    match bi
    case 0 => [17, 13, 8, 21, 9, 3, 18, 12, 10, 0, 4, 15, 19, 2, 5, 10, 26, 19, 13, 13, 1, 0, -1, -1]
    case 1 => [3, 12, 11, 14, 11, 25, 5, 18, 0, 9, 2, 26, 26, 10, 24, 7, 14, 20, 4, 2, -1, 0, 0, -1]
    case 2 => [22, 16, 4, 3, 10, 21, 12, 5, 21, 14, 19, 5, -1, 8, 5, 18, 11, 5, 5, 15, 0, -1, 0, 0]
    case _ => [7, 7, 14, 14, 4, 16, 16, 24, 24, 10, 1, 7, 15, 6, 10, 26, 8, 18, 21, 14, 1, -1, -1, 0]
  }

  function F2R12(bi: nat): seq<int>
    requires bi < 12
  {
    match bi
    case 0 => [40, -1, -1, -1, 22, -1, 49, 23, 43, -1, -1, -1, 1, 0, -1, -1, -1, -1, -1, -1, -1, -1, -1, -1]
    case 1 => [50, 1, -1, -1, 48, 35, -1, -1, 13, -1, 30, -1, -1, 0, 0, -1, -1, -1, -1, -1, -1, -1, -1, -1]
    case 2 => [39, 50, -1, -1, 4, -1, 2, -1, -1, -1, -1, 49, -1, -1, 0, 0, -1, -1, -1, -1, -1, -1, -1, -1]
    case 3 => [33, -1, -1, 38, 37, -1, -1, 4, 1, -1, -1, -1, -1, -1, -1, 0, 0, -1, -1, -1, -1, -1, -1, -1]
    case 4 => [45, -1, -1, -1, 0, 22, -1, -1, 20, 42, -1, -1, -1, -1, -1, -1, 0, 0, -1, -1, -1, -1, -1, -1]
    case 5 => [51, -1, -1, 48, 35, -1, -1, -1, 44, -1, 18, -1, -1, -1, -1, -1, -1, 0, 0, -1, -1, -1, -1, -1]
    case 6 => [47, 11, -1, -1, -1, 17, -1, -1, 51, -1, -1, -1, 0, -1, -1, -1, -1, -1, 0, 0, -1, -1, -1, -1]
    case 7 => [5, -1, 25, -1, 6, -1, 45, -1, 13, 40, -1, -1, -1, -1, -1, -1, -1, -1, -1, 0, 0, -1, -1, -1]
    case 8 => [33, -1, -1, 34, 24, -1, -1, -1, 23, -1, -1, 46, -1, -1, -1, -1, -1, -1, -1, -1, 0, 0, -1, -1]
    case 9 => [1, -1, 27, -1, 1, -1, -1, -1, 38, -1, 44, -1, -1, -1, -1, -1, -1, -1, -1, -1, -1, 0, 0, -1]
    case 10 => [-1, 18, -1, -1, 23, -1, -1, 8, 0, 35, -1, -1, -1, -1, -1, -1, -1, -1, -1, -1, -1, -1, 0, 0]
    case _ => [49, -1, 17, -1, 30, -1, -1, -1, 34, -1, -1, 19, 1, -1, -1, -1, -1, -1, -1, -1, -1, -1, -1, 0]
  }

  function F2R23(bi: nat): seq<int>
    requires bi < 8
  {
    match bi
    case 0 => [39, 31, 22, 43, -1, 40, 4, -1, 11, -1, -1, 50, -1, -1, -1, 6, 1, 0, -1, -1, -1, -1, -1, -1]
    case 1 => [25, 52, 41, 2, 6, -1, 14, -1, 34, -1, -1, -1, 24, -1, 37, -1, -1, 0, 0, -1, -1, -1, -1, -1]
    case 2 => [43, 31, 29, 0, 21, -1, 28, -1, -1, 2, -1, -1, 7, -1, 17, -1, -1, -1, 0, 0, -1, -1, -1, -1]
    case 3 => [20, 33, 48, -1, 4, 13, -1, 26, -1, -1, 22, -1, -1, 46, 42, -1, -1, -1, -1, 0, 0, -1, -1, -1]
    case 4 => [45, 7, 18, 51, 12, 25, -1, -1, -1, 50, -1, -1, 5, -1, -1, -1, 0, -1, -1, -1, 0, 0, -1, -1]
    case 5 => [35, 40, 32, 16, 5, -1, -1, 18, -1, -1, 43, 51, -1, 32, -1, -1, -1, -1, -1, -1, -1, 0, 0, -1]
    case 6 => [9, 24, 13, 22, 28, -1, -1, 37, -1, -1, 25, -1, -1, 52, -1, 13, -1, -1, -1, -1, -1, -1, 0, 0]
    case _ => [32, 22, 4, 21, 16, -1, -1, -1, 27, 28, -1, 38, -1, -1, -1, 8, 1, -1, -1, -1, -1, -1, -1, 0]
  }

  function F2R34(bi: nat): seq<int>
    requires bi < 6
  {
    match bi
    case 0 => [39, 40, 51, 41, 3, 29, 8, 36, -1, 14, -1, 6, -1, 33, -1, 11, -1, 4, 1, 0, -1, -1, -1, -1]
    case 1 => [48, 21, 47, 9, 48, 35, 51, -1, 38, -1, 28, -1, 34, -1, 50, -1, 50, -1, -1, 0, 0, -1, -1, -1]
    case 2 => [30, 39, 28, 42, 50, 39, 5, 17, -1, 6, -1, 18, -1, 20, -1, 15, -1, 40, -1, -1, 0, 0, -1, -1]
    case 3 => [29, 0, 1, 43, 36, 30, 47, -1, 49, -1, 47, -1, 3, -1, 35, -1, 34, -1, 0, -1, -1, 0, 0, -1]
    case 4 => [1, 32, 11, 23, 10, 44, 12, 7, -1, 48, -1, 4, -1, 9, -1, 17, -1, 16, -1, -1, -1, -1, 0, 0]
    case _ => [13, 7, 15, 47, 23, 16, 47, -1, 43, -1, 29, -1, 52, -1, 2, -1, 53, -1, 1, -1, -1, -1, -1, 0]
  }

  function F2R56(bi: nat): seq<int>
    requires bi < 4
  {
    match bi
    case 0 => [48, 29, 37, 52, 2, 16, 6, 14, 53, 31, 34, 5, 18, 42, 53, 31, 45, -1, 46, 52, 1, 0, -1, -1]
    case 1 => [17, 4, 30, 7, 43, 11, 24, 6, 14, 21, 6, 39, 17, 40, 47, 7, 15, 41, 19, -1, -1, 0, 0, -1]
    case 2 => [7, 2, 51, 31, 46, 23, 16, 11, 53, 40, 10, 7, 46, 53, 33, 35, -1, 25, 35, 38, 0, -1, 0, 0]
    case _ => [19, 48, 41, 1, 10, 7, 36, 47, 5, 29, 52, 52, 31, 10, 26, 6, 3, 2, -1, 51, 1, -1, -1, 0]
  }

  function F3R12(bi: nat): seq<int>
    requires bi < 12
  {
    match bi
    case 0 => [57, -1, -1, -1, 50, -1, 11, -1, 50, -1, 79, -1, 1, 0, -1, -1, -1, -1, -1, -1, -1, -1, -1, -1]
    case 1 => [3, -1, 28, -1, 0, -1, -1, -1, 55, 7, -1, -1, -1, 0, 0, -1, -1, -1, -1, -1, -1, -1, -1, -1]
    case 2 => [30, -1, -1, -1, 24, 37, -1, -1, 56, 14, -1, -1, -1, -1, 0, 0, -1, -1, -1, -1, -1, -1, -1, -1]
    case 3 => [62, 53, -1, -1, 53, -1, -1, 3, 35, -1, -1, -1, -1, -1, -1, 0, 0, -1, -1, -1, -1, -1, -1, -1]
    case 4 => [40, -1, -1, 20, 66, -1, -1, 22, 28, -1, -1, -1, -1, -1, -1, -1, 0, 0, -1, -1, -1, -1, -1, -1]
    case 5 => [0, -1, -1, -1, 8, -1, 42, -1, 50, -1, -1, 8, -1, -1, -1, -1, -1, 0, 0, -1, -1, -1, -1, -1]
    case 6 => [69, 79, 79, -1, -1, -1, 56, -1, 52, -1, -1, -1, 0, -1, -1, -1, -1, -1, 0, 0, -1, -1, -1, -1]
    case 7 => [65, -1, -1, -1, 38, 57, -1, -1, 72, -1, 27, -1, -1, -1, -1, -1, -1, -1, -1, 0, 0, -1, -1, -1]
    case 8 => [64, -1, -1, -1, 14, 52, -1, -1, 30, -1, -1, 32, -1, -1, -1, -1, -1, -1, -1, -1, 0, 0, -1, -1]
    case 9 => [-1, 45, -1, 70, 0, -1, -1, -1, 77, 9, -1, -1, -1, -1, -1, -1, -1, -1, -1, -1, -1, 0, 0, -1]
    case 10 => [2, 56, -1, 57, 35, -1, -1, -1, -1, -1, 12, -1, -1, -1, -1, -1, -1, -1, -1, -1, -1, -1, 0, 0]
    case _ => [24, -1, 61, -1, 60, -1, -1, 27, 51, -1, -1, 16, 1, -1, -1, -1, -1, -1, -1, -1, -1, -1, -1, 0]
  }

  function F3R23(bi: nat): seq<int>
    requires bi < 8
  {
    match bi
    case 0 => [61, 75, 4, 63, 56, -1, -1, -1, -1, -1, -1, 8, -1, 2, 17, 25, 1, 0, -1, -1, -1, -1, -1, -1]
    case 1 => [56, 74, 77, 20, -1, -1, -1, 64, 24, 4, 67, -1, 7, -1, -1, -1, -1, 0, 0, -1, -1, -1, -1, -1]
    case 2 => [28, 21, 68, 10, 7, 14, 65, -1, -1, -1, 23, -1, -1, -1, 75, -1, -1, -1, 0, 0, -1, -1, -1, -1]
    case 3 => [48, 38, 43, 78, 76, -1, -1, -1, -1, 5, 36, -1, 15, 72, -1, -1, -1, -1, -1, 0, 0, -1, -1, -1]
    case 4 => [40, 2, 53, 25, -1, 52, 62, -1, 20, -1, -1, 44, -1, -1, -1, -1, 0, -1, -1, -1, 0, 0, -1, -1]
    case 5 => [69, 23, 64, 10, 22, -1, 21, -1, -1, -1, -1, -1, 68, 23, 29, -1, -1, -1, -1, -1, -1, 0, 0, -1]
    case 6 => [12, 0, 68, 20, 55, 61, -1, 40, -1, -1, -1, 52, -1, -1, -1, 44, -1, -1, -1, -1, -1, -1, 0, 0]
    case _ => [58, 8, 34, 64, 78, -1, -1, 11, 78, 24, -1, -1, -1, -1, -1, 58, 1, -1, -1, -1, -1, -1, -1, 0]
  }

  function F3R34(bi: nat): seq<int>
    requires bi < 6
  {
    match bi
    case 0 => [48, 29, 28, 39, 9, 61, -1, -1, -1, 63, 45, 80, -1, -1, -1, 37, 32, 22, 1, 0, -1, -1, -1, -1]
    case 1 => [4, 49, 42, 48, 11, 30, -1, -1, -1, 49, 17, 41, 37, 15, -1, 54, -1, -1, -1, 0, 0, -1, -1, -1]
    case 2 => [35, 76, 78, 51, 37, 35, 21, -1, 17, 64, -1, -1, -1, 59, 7, -1, -1, 32, -1, -1, 0, 0, -1, -1]
    case 3 => [9, 65, 44, 9, 54, 56, 73, 34, 42, -1, -1, -1, 35, -1, -1, -1, 46, 39, 0, -1, -1, 0, 0, -1]
    case 4 => [3, 62, 7, 80, 68, 26, -1, 80, 55, -1, 36, -1, 26, -1, 9, -1, 72, -1, -1, -1, -1, -1, 0, 0]
    case _ => [26, 75, 33, 21, 69, 59, 3, 38, -1, -1, -1, 35, -1, 62, 36, 26, -1, -1, 1, -1, -1, -1, -1, 0]
  }

  function F3R56(bi: nat): seq<int>
    requires bi < 4
  {
    match bi
    case 0 => [13, 48, 80, 66, 4, 74, 7, 30, 76, 52, 37, 60, -1, 49, 73, 31, 74, 73, 23, -1, 1, 0, -1, -1]
    case 1 => [69, 63, 74, 56, 64, 77, 57, 65, 6, 16, 51, -1, 64, -1, 68, 9, 48, 62, 54, 27, -1, 0, 0, -1]
    case 2 => [51, 15, 0, 80, 24, 25, 42, 54, 44, 71, 71, 9, 67, 35, -1, 58, -1, 29, -1, 53, 0, -1, 0, 0]
    case _ => [16, 29, 36, 41, 44, 56, 59, 37, 50, 24, -1, 65, 4, 65, 52, -1, 4, -1, 73, 52, 1, -1, -1, 0]
  }

  /** Block length in bits of the three standard codeword lengths. */
  predicate BlockLength(l: nat) {
    l == 648 || l == 1296 || l == 1944
  }

  /** Number of block rows of a rate. */
  function BlockRows(rate: CodeRate): nat {
    match rate case R12 => 12 case R23 => 8 case R34 => 6 case R56 => 4
  }

  function PrototypeRow(l: nat, rate: CodeRate, bi: nat): seq<int>
    requires BlockLength(l) && bi < BlockRows(rate)
  {
    match rate
    case R12 => if l == 648 then F1R12(bi) else if l == 1296 then F2R12(bi) else F3R12(bi)
    case R23 => if l == 648 then F1R23(bi) else if l == 1296 then F2R23(bi) else F3R23(bi)
    case R34 => if l == 648 then F1R34(bi) else if l == 1296 then F2R34(bi) else F3R34(bi)
    case R56 => if l == 648 then F1R56(bi) else if l == 1296 then F2R56(bi) else F3R56(bi)
  }

  function Prototype(l: nat, rate: CodeRate): (proto: seq<seq<int>>)
    requires BlockLength(l)
    ensures |proto| == BlockRows(rate)
  {
    seq(BlockRows(rate), bi requires 0 <= bi < BlockRows(rate) => PrototypeRow(l, rate, bi))
  }

  /** The entry every table has in parity column `j` of block row `bi`: in column 0 a shift by
      one in the first and last rows and an identity in the middle row, then the dual diagonal. */
  function StandardEntry(mb: nat, bi: nat, j: nat): int {
    if j == 0 then (if bi == 0 || bi + 1 == mb then 1 else if 2 * bi == mb then 0 else -1)
    else if bi == j - 1 || bi == j then 0
    else -1
  }

  /** The parity part of a row, its last `mb` entries, is the standard one. */
  ghost predicate StandardRow(row: seq<int>, mb: nat, bi: nat) {
    |row| == 24 && mb <= 24 && forall j | 0 <= j < mb :: row[24 - mb + j] == StandardEntry(mb, bi, j)
  }

  lemma {:induction false} F1R12Upper(bi: nat)
    requires bi < 6
    ensures StandardRow(F1R12(bi), 12, bi)
  {
    match bi
    case 0 =>
    case 1 =>
    case 2 =>
    case 3 =>
    case 4 =>
    case _ =>
  }

  lemma {:induction false} F1R12Lower(bi: nat)
    requires 6 <= bi < 12
    ensures StandardRow(F1R12(bi), 12, bi)
  {
    match bi
    case 6 =>
    case 7 =>
    case 8 =>
    case 9 =>
    case 10 =>
    case _ =>
  }

  lemma {:induction false} F1R12Standard(bi: nat)
    requires bi < 12
    ensures StandardRow(F1R12(bi), 12, bi)
  {
    hide F1R12, StandardRow;
    if bi < 6 {
      F1R12Upper(bi);
    } else {
      F1R12Lower(bi);
    }
  }

  lemma {:induction false} F1R23Standard(bi: nat)
    requires bi < 8
    ensures StandardRow(F1R23(bi), 8, bi)
  {
    match bi
    case 0 =>
    case 1 =>
    case 2 =>
    case 3 =>
    case 4 =>
    case 5 =>
    case 6 =>
    case _ =>
  }

  lemma {:induction false} F1R34Standard(bi: nat)
    requires bi < 6
    ensures StandardRow(F1R34(bi), 6, bi)
  {
    match bi
    case 0 =>
    case 1 =>
    case 2 =>
    case 3 =>
    case 4 =>
    case _ =>
  }

  lemma {:induction false} F1R56Standard(bi: nat)
    requires bi < 4
    ensures StandardRow(F1R56(bi), 4, bi)
  {
    match bi
    case 0 =>
    case 1 =>
    case 2 =>
    case _ =>
  }

  lemma {:induction false} F2R12Upper(bi: nat)
    requires bi < 6
    ensures StandardRow(F2R12(bi), 12, bi)
  {
    match bi
    case 0 =>
    case 1 =>
    case 2 =>
    case 3 =>
    case 4 =>
    case _ =>
  }

  lemma {:induction false} F2R12Lower(bi: nat)
    requires 6 <= bi < 12
    ensures StandardRow(F2R12(bi), 12, bi)
  {
    match bi
    case 6 =>
    case 7 =>
    case 8 =>
    case 9 =>
    case 10 =>
    case _ =>
  }

  lemma {:induction false} F2R12Standard(bi: nat)
    requires bi < 12
    ensures StandardRow(F2R12(bi), 12, bi)
  {
    hide F2R12, StandardRow;
    if bi < 6 {
      F2R12Upper(bi);
    } else {
      F2R12Lower(bi);
    }
  }

  lemma {:induction false} F2R23Standard(bi: nat)
    requires bi < 8
    ensures StandardRow(F2R23(bi), 8, bi)
  {
    match bi
    case 0 =>
    case 1 =>
    case 2 =>
    case 3 =>
    case 4 =>
    case 5 =>
    case 6 =>
    case _ =>
  }

  lemma {:induction false} F2R34Standard(bi: nat)
    requires bi < 6
    ensures StandardRow(F2R34(bi), 6, bi)
  {
    match bi
    case 0 =>
    case 1 =>
    case 2 =>
    case 3 =>
    case 4 =>
    case _ =>
  }

  lemma {:induction false} F2R56Standard(bi: nat)
    requires bi < 4
    ensures StandardRow(F2R56(bi), 4, bi)
  {
    match bi
    case 0 =>
    case 1 =>
    case 2 =>
    case _ =>
  }

  lemma {:induction false} F3R12Upper(bi: nat)
    requires bi < 6
    ensures StandardRow(F3R12(bi), 12, bi)
  {
    match bi
    case 0 =>
    case 1 =>
    case 2 =>
    case 3 =>
    case 4 =>
    case _ =>
  }

  lemma {:induction false} F3R12Lower(bi: nat)
    requires 6 <= bi < 12
    ensures StandardRow(F3R12(bi), 12, bi)
  {
    match bi
    case 6 =>
    case 7 =>
    case 8 =>
    case 9 =>
    case 10 =>
    case _ =>
  }

  lemma {:induction false} F3R12Standard(bi: nat)
    requires bi < 12
    ensures StandardRow(F3R12(bi), 12, bi)
  {
    hide F3R12, StandardRow;
    if bi < 6 {
      F3R12Upper(bi);
    } else {
      F3R12Lower(bi);
    }
  }

  lemma {:induction false} F3R23Standard(bi: nat)
    requires bi < 8
    ensures StandardRow(F3R23(bi), 8, bi)
  {
    match bi
    case 0 =>
    case 1 =>
    case 2 =>
    case 3 =>
    case 4 =>
    case 5 =>
    case 6 =>
    case _ =>
  }

  lemma {:induction false} F3R34Standard(bi: nat)
    requires bi < 6
    ensures StandardRow(F3R34(bi), 6, bi)
  {
    match bi
    case 0 =>
    case 1 =>
    case 2 =>
    case 3 =>
    case 4 =>
    case _ =>
  }

  lemma {:induction false} F3R56Standard(bi: nat)
    requires bi < 4
    ensures StandardRow(F3R56(bi), 4, bi)
  {
    match bi
    case 0 =>
    case 1 =>
    case 2 =>
    case _ =>
  }

  lemma {:induction false} RowStandard(l: nat, rate: CodeRate, bi: nat)
    requires BlockLength(l) && bi < BlockRows(rate)
    ensures StandardRow(PrototypeRow(l, rate, bi), BlockRows(rate), bi)
  {
    hide StandardRow, F1R12, F2R12, F3R12, F1R23, F2R23, F3R23, F1R34, F2R34, F3R34, F1R56, F2R56, F3R56;
    match rate
    case R12 => if l == 648 { F1R12Standard(bi); } else if l == 1296 { F2R12Standard(bi); } else { F3R12Standard(bi); }
    case R23 => if l == 648 { F1R23Standard(bi); } else if l == 1296 { F2R23Standard(bi); } else { F3R23Standard(bi); }
    case R34 => if l == 648 { F1R34Standard(bi); } else if l == 1296 { F2R34Standard(bi); } else { F3R34Standard(bi); }
    case R56 => if l == 648 { F1R56Standard(bi); } else if l == 1296 { F2R56Standard(bi); } else { F3R56Standard(bi); }
  }

  /** The code of a block length and rate, before its checks are expanded. */
  function Unexpanded(l: nat, rate: CodeRate): Code
    requires BlockLength(l)
  {
    Code(l / 24, 24 - BlockRows(rate), Prototype(l, rate), [])
  }

  /** All twelve prototypes have the structure the encoder relies on, and their sizes match
      the block length and the code rate. */
  lemma {:induction false} PrototypesDualDiagonal(l: nat, rate: CodeRate)
    requires BlockLength(l)
    ensures var c := Unexpanded(l, rate);
            && c.Shaped() && DualDiagonal(c)
            && c.N() == l && c.K() * rate.Den() == l * rate.Num() && c.M() == l - c.K()
  {
    hide StandardEntry, PrototypeRow, FirstColumnIdentity;
    var c := Unexpanded(l, rate);
    var mb := BlockRows(rate);
    forall bi | 0 <= bi < mb
      ensures StandardRow(c.proto[bi], mb, bi)
    {
      RowStandard(l, rate, bi);
    }
    forall bi, j | 0 <= bi < mb && 0 <= j < mb
      ensures ParityShift(c, bi, j) == StandardEntry(mb, bi, j)
    {
      assert c.proto[bi][24 - mb + j] == StandardEntry(mb, bi, j);
    }
    StandardIsDual(c);
  }

  lemma {:induction false} StandardIsDual(c: Code)
    requires c.Shaped() && c.Mb() >= 4 && c.Mb() % 2 == 0
    requires forall bi, j | 0 <= bi < c.Mb() && 0 <= j < c.Mb() :: ParityShift(c, bi, j) == StandardEntry(c.Mb(), bi, j)
    ensures DualDiagonal(c)
  {
    hide FirstColumnIdentity;
    forall bi | 0 <= bi < c.Mb()
      ensures c.proto[bi][c.kb] == StandardEntry(c.Mb(), bi, 0)
    {
      assert c.proto[bi][c.kb] == ParityShift(c, bi, 0);
    }
    ThreeEntryIdentity(c, c.Mb() / 2);
  }
}
