/**
 * The fixed grid topology: NODES maps (row, column) to a node index, and every
 * directional rule of the editor is a row or column offset in this table.
 * Position lookup scans the rows in order and keeps the last row whose
 * `indexOf` finds the index, as the editor's `NODES.forEach` loops do.
 */
module Topology {
  import opened EditorTypes

  const NODES: seq<seq<int>> := [
    [118, 74, 75, 76, 77, 78, 64, 1, 2, 3, 4, 5, 6, 56, 127, 128, 129, 130, 131, 172],
    [119, 73, 79, 80, 81, 82, 65, 7, 8, 9, 10, 11, 12, 57, 132, 133, 134, 135, 136, 178],
    [120, 83, 84, 85, 86, 87, 66, 13, 14, 15, 16, 17, 18, 58, 137, 138, 139, 140, 141, 173],
    [121, 88, 89, 90, 91, 92, 67, 19, 20, 21, 22, 23, 24, 59, 142, 143, 144, 145, 146, 175],
    [122, 93, 94, 95, 96, 97, 68, 25, 26, 27, 28, 29, 30, 60, 147, 148, 149, 150, 151, 176],
    [123, 98, 99, 100, 101, 102, 69, 31, 32, 33, 34, 35, 36, 61, 152, 153, 154, 155, 156, 179],
    [124, 103, 104, 105, 106, 107, 70, 37, 38, 39, 40, 41, 42, 62, 157, 158, 159, 160, 161, 180],
    [125, 108, 109, 110, 111, 112, 71, 43, 44, 45, 46, 47, 48, 63, 162, 163, 164, 165, 166, 201],
    [126, 113, 114, 115, 116, 117, 72, 49, 50, 51, 52, 53, 54, 55, 167, 168, 169, 170, 171, 177],
    [310, 271, 278, 276, 277, 281, 266, 203, 204, 205, 206, 207, 208, 258, 181, 317, 316, 318, 319, 359],
    [311, 182, 183, 282, 283, 284, 267, 209, 210, 211, 212, 213, 214, 259, 195, 320, 321, 322, 323, 354],
    [192, 184, 285, 286, 287, 280, 268, 215, 216, 217, 218, 219, 220, 260, 325, 324, 326, 327, 196, 202],
    [313, 279, 288, 289, 185, 291, 269, 221, 222, 223, 224, 225, 226, 261, 328, 329, 330, 331, 332, 355],
    [193, 294, 292, 293, 295, 296, 270, 227, 228, 229, 230, 231, 232, 262, 197, 334, 333, 337, 335, 356],
    [194, 186, 187, 188, 290, 297, 272, 233, 234, 235, 236, 237, 238, 263, 336, 338, 339, 198, 340, 357],
    [314, 298, 300, 299, 189, 301, 273, 239, 240, 241, 242, 243, 244, 264, 341, 342, 199, 343, 344, 358],
    [315, 190, 302, 303, 304, 305, 366, 245, 246, 373, 374, 249, 375, 378, 392, 345, 346, 200, 348, 360],
    [391, 361, 380, 383, 385, 367, 274, 368, 369, 247, 248, 370, 250, 265, 347, 381, 384, 379, 394, 400],
    [312, 306, 307, 309, 308, 191, 275, 251, 252, 253, 254, 255, 256, 257, 349, 350, 351, 352, 353, 393],
    [390, 386, 387, 388, 389, 362, 382, 376, 363, 364, 365, 371, 372, 377, 395, 396, 397, 398, 399, 174]
  ]

  /** (row, col) is a cell of the table. */
  predicate IsCell(row: int, col: int) {
    0 <= row < 20 && 0 <= col < 20
  }

  /** Some cell of the table holds v. */
  predicate OnGrid(v: int) {
    exists row, col | 0 <= row < |NODES| && 0 <= col < |NODES[row]| :: NODES[row][col] == v
  }

  /** NODES is a 20 x 20 rectangle: every row has NODES[0].length entries,
      which the neighbour bounds checks rely on. */
  lemma Rectangular()
    ensures |NODES| == 20 && |NODES[0]| == 20
    ensures forall row | 0 <= row < |NODES| :: |NODES[row]| == |NODES[0]|
    ensures forall row, col | IsCell(row, col) :: 0 <= row < |NODES| && 0 <= col < |NODES[row]|
  {
  }

  // ---------------------------------------------------------------------------
  // The table is injective. The certificate is its inverse, CELL_OF[v / 20][v % 20]
  // being the cell that holds v, checked five cells at a time.

  ghost const CELL_OF: seq<seq<(int, int)>> := [
    [(-1, -1), (0, 7), (0, 8), (0, 9), (0, 10), (0, 11), (0, 12), (1, 7), (1, 8), (1, 9), (1, 10), (1, 11), (1, 12), (2, 7), (2, 8), (2, 9), (2, 10), (2, 11), (2, 12), (3, 7)],
    [(3, 8), (3, 9), (3, 10), (3, 11), (3, 12), (4, 7), (4, 8), (4, 9), (4, 10), (4, 11), (4, 12), (5, 7), (5, 8), (5, 9), (5, 10), (5, 11), (5, 12), (6, 7), (6, 8), (6, 9)],
    [(6, 10), (6, 11), (6, 12), (7, 7), (7, 8), (7, 9), (7, 10), (7, 11), (7, 12), (8, 7), (8, 8), (8, 9), (8, 10), (8, 11), (8, 12), (8, 13), (0, 13), (1, 13), (2, 13), (3, 13)],
    [(4, 13), (5, 13), (6, 13), (7, 13), (0, 6), (1, 6), (2, 6), (3, 6), (4, 6), (5, 6), (6, 6), (7, 6), (8, 6), (1, 1), (0, 1), (0, 2), (0, 3), (0, 4), (0, 5), (1, 2)],
    [(1, 3), (1, 4), (1, 5), (2, 1), (2, 2), (2, 3), (2, 4), (2, 5), (3, 1), (3, 2), (3, 3), (3, 4), (3, 5), (4, 1), (4, 2), (4, 3), (4, 4), (4, 5), (5, 1), (5, 2)],
    [(5, 3), (5, 4), (5, 5), (6, 1), (6, 2), (6, 3), (6, 4), (6, 5), (7, 1), (7, 2), (7, 3), (7, 4), (7, 5), (8, 1), (8, 2), (8, 3), (8, 4), (8, 5), (0, 0), (1, 0)],
    [(2, 0), (3, 0), (4, 0), (5, 0), (6, 0), (7, 0), (8, 0), (0, 14), (0, 15), (0, 16), (0, 17), (0, 18), (1, 14), (1, 15), (1, 16), (1, 17), (1, 18), (2, 14), (2, 15), (2, 16)],
    [(2, 17), (2, 18), (3, 14), (3, 15), (3, 16), (3, 17), (3, 18), (4, 14), (4, 15), (4, 16), (4, 17), (4, 18), (5, 14), (5, 15), (5, 16), (5, 17), (5, 18), (6, 14), (6, 15), (6, 16)],
    [(6, 17), (6, 18), (7, 14), (7, 15), (7, 16), (7, 17), (7, 18), (8, 14), (8, 15), (8, 16), (8, 17), (8, 18), (0, 19), (2, 19), (19, 19), (3, 19), (4, 19), (8, 19), (1, 19), (5, 19)],
    [(6, 19), (9, 14), (10, 1), (10, 2), (11, 1), (12, 4), (14, 1), (14, 2), (14, 3), (15, 4), (16, 1), (18, 5), (11, 0), (13, 0), (14, 0), (10, 14), (11, 18), (13, 14), (14, 17), (15, 16)],
    [(16, 17), (7, 19), (11, 19), (9, 7), (9, 8), (9, 9), (9, 10), (9, 11), (9, 12), (10, 7), (10, 8), (10, 9), (10, 10), (10, 11), (10, 12), (11, 7), (11, 8), (11, 9), (11, 10), (11, 11)],
    [(11, 12), (12, 7), (12, 8), (12, 9), (12, 10), (12, 11), (12, 12), (13, 7), (13, 8), (13, 9), (13, 10), (13, 11), (13, 12), (14, 7), (14, 8), (14, 9), (14, 10), (14, 11), (14, 12), (15, 7)],
    [(15, 8), (15, 9), (15, 10), (15, 11), (15, 12), (16, 7), (16, 8), (17, 9), (17, 10), (16, 11), (17, 12), (18, 7), (18, 8), (18, 9), (18, 10), (18, 11), (18, 12), (18, 13), (9, 13), (10, 13)],
    [(11, 13), (12, 13), (13, 13), (14, 13), (15, 13), (17, 13), (9, 6), (10, 6), (11, 6), (12, 6), (13, 6), (9, 1), (14, 6), (15, 6), (17, 6), (18, 6), (9, 3), (9, 4), (9, 2), (12, 1)],
    [(11, 5), (9, 5), (10, 3), (10, 4), (10, 5), (11, 2), (11, 3), (11, 4), (12, 2), (12, 3), (14, 4), (12, 5), (13, 2), (13, 3), (13, 1), (13, 4), (13, 5), (14, 5), (15, 1), (15, 3)],
    [(15, 2), (15, 5), (16, 2), (16, 3), (16, 4), (16, 5), (18, 1), (18, 2), (18, 4), (18, 3), (9, 0), (10, 0), (18, 0), (12, 0), (15, 0), (16, 0), (9, 16), (9, 15), (9, 17), (9, 18)],
    [(10, 15), (10, 16), (10, 17), (10, 18), (11, 15), (11, 14), (11, 16), (11, 17), (12, 14), (12, 15), (12, 16), (12, 17), (12, 18), (13, 16), (13, 15), (13, 18), (14, 14), (13, 17), (14, 15), (14, 16)],
    [(14, 18), (15, 14), (15, 15), (15, 17), (15, 18), (16, 15), (16, 16), (17, 14), (16, 18), (18, 14), (18, 15), (18, 16), (18, 17), (18, 18), (10, 19), (12, 19), (13, 19), (14, 19), (15, 19), (9, 19)],
    [(16, 19), (17, 1), (19, 5), (19, 8), (19, 9), (19, 10), (16, 6), (17, 5), (17, 7), (17, 8), (17, 11), (19, 11), (19, 12), (16, 9), (16, 10), (16, 12), (19, 7), (19, 13), (16, 13), (17, 17)],
    [(17, 2), (17, 15), (19, 6), (17, 3), (17, 16), (17, 4), (19, 1), (19, 2), (19, 3), (19, 4), (19, 0), (17, 0), (16, 14), (18, 19), (17, 18), (19, 14), (19, 15), (19, 16), (19, 17), (19, 18)],
    [(17, 19), (-1, -1), (-1, -1), (-1, -1), (-1, -1), (-1, -1), (-1, -1), (-1, -1), (-1, -1), (-1, -1), (-1, -1), (-1, -1), (-1, -1), (-1, -1), (-1, -1), (-1, -1), (-1, -1), (-1, -1), (-1, -1), (-1, -1)]
  ]

  ghost function CellOf(v: int): (int, int) {
    if 0 <= v < 420 then CELL_OF[v / 20][v % 20] else (-1, -1)
  }

  lemma RowInverse0A() ensures forall c | 0 <= c < 5 :: CellOf(NODES[0][c]) == (0, c) {}
  lemma RowInverse0B() ensures forall c | 5 <= c < 10 :: CellOf(NODES[0][c]) == (0, c) {}
  lemma RowInverse0C() ensures forall c | 10 <= c < 15 :: CellOf(NODES[0][c]) == (0, c) {}
  lemma RowInverse0D() ensures forall c | 15 <= c < 20 :: CellOf(NODES[0][c]) == (0, c) {}
  lemma RowInverse1A() ensures forall c | 0 <= c < 5 :: CellOf(NODES[1][c]) == (1, c) {}
  lemma RowInverse1B() ensures forall c | 5 <= c < 10 :: CellOf(NODES[1][c]) == (1, c) {}
  lemma RowInverse1C() ensures forall c | 10 <= c < 15 :: CellOf(NODES[1][c]) == (1, c) {}
  lemma RowInverse1D() ensures forall c | 15 <= c < 20 :: CellOf(NODES[1][c]) == (1, c) {}
  lemma RowInverse2A() ensures forall c | 0 <= c < 5 :: CellOf(NODES[2][c]) == (2, c) {}
  lemma RowInverse2B() ensures forall c | 5 <= c < 10 :: CellOf(NODES[2][c]) == (2, c) {}
  lemma RowInverse2C() ensures forall c | 10 <= c < 15 :: CellOf(NODES[2][c]) == (2, c) {}
  lemma RowInverse2D() ensures forall c | 15 <= c < 20 :: CellOf(NODES[2][c]) == (2, c) {}
  lemma RowInverse3A() ensures forall c | 0 <= c < 5 :: CellOf(NODES[3][c]) == (3, c) {}
  lemma RowInverse3B() ensures forall c | 5 <= c < 10 :: CellOf(NODES[3][c]) == (3, c) {}
  lemma RowInverse3C() ensures forall c | 10 <= c < 15 :: CellOf(NODES[3][c]) == (3, c) {}
  lemma RowInverse3D() ensures forall c | 15 <= c < 20 :: CellOf(NODES[3][c]) == (3, c) {}
  lemma RowInverse4A() ensures forall c | 0 <= c < 5 :: CellOf(NODES[4][c]) == (4, c) {}
  lemma RowInverse4B() ensures forall c | 5 <= c < 10 :: CellOf(NODES[4][c]) == (4, c) {}
  lemma RowInverse4C() ensures forall c | 10 <= c < 15 :: CellOf(NODES[4][c]) == (4, c) {}
  lemma RowInverse4D() ensures forall c | 15 <= c < 20 :: CellOf(NODES[4][c]) == (4, c) {}
  lemma RowInverse5A() ensures forall c | 0 <= c < 5 :: CellOf(NODES[5][c]) == (5, c) {}
  lemma RowInverse5B() ensures forall c | 5 <= c < 10 :: CellOf(NODES[5][c]) == (5, c) {}
  lemma RowInverse5C() ensures forall c | 10 <= c < 15 :: CellOf(NODES[5][c]) == (5, c) {}
  lemma RowInverse5D() ensures forall c | 15 <= c < 20 :: CellOf(NODES[5][c]) == (5, c) {}
  lemma RowInverse6A() ensures forall c | 0 <= c < 5 :: CellOf(NODES[6][c]) == (6, c) {}
  lemma RowInverse6B() ensures forall c | 5 <= c < 10 :: CellOf(NODES[6][c]) == (6, c) {}
  lemma RowInverse6C() ensures forall c | 10 <= c < 15 :: CellOf(NODES[6][c]) == (6, c) {}
  lemma RowInverse6D() ensures forall c | 15 <= c < 20 :: CellOf(NODES[6][c]) == (6, c) {}
  lemma RowInverse7A() ensures forall c | 0 <= c < 5 :: CellOf(NODES[7][c]) == (7, c) {}
  lemma RowInverse7B() ensures forall c | 5 <= c < 10 :: CellOf(NODES[7][c]) == (7, c) {}
  lemma RowInverse7C() ensures forall c | 10 <= c < 15 :: CellOf(NODES[7][c]) == (7, c) {}
  lemma RowInverse7D() ensures forall c | 15 <= c < 20 :: CellOf(NODES[7][c]) == (7, c) {}
  lemma RowInverse8A() ensures forall c | 0 <= c < 5 :: CellOf(NODES[8][c]) == (8, c) {}
  lemma RowInverse8B() ensures forall c | 5 <= c < 10 :: CellOf(NODES[8][c]) == (8, c) {}
  lemma RowInverse8C() ensures forall c | 10 <= c < 15 :: CellOf(NODES[8][c]) == (8, c) {}
  lemma RowInverse8D() ensures forall c | 15 <= c < 20 :: CellOf(NODES[8][c]) == (8, c) {}
  lemma RowInverse9A() ensures forall c | 0 <= c < 5 :: CellOf(NODES[9][c]) == (9, c) {}
  lemma RowInverse9B() ensures forall c | 5 <= c < 10 :: CellOf(NODES[9][c]) == (9, c) {}
  lemma RowInverse9C() ensures forall c | 10 <= c < 15 :: CellOf(NODES[9][c]) == (9, c) {}
  lemma RowInverse9D() ensures forall c | 15 <= c < 20 :: CellOf(NODES[9][c]) == (9, c) {}
  lemma RowInverse10A() ensures forall c | 0 <= c < 5 :: CellOf(NODES[10][c]) == (10, c) {}
  lemma RowInverse10B() ensures forall c | 5 <= c < 10 :: CellOf(NODES[10][c]) == (10, c) {}
  lemma RowInverse10C() ensures forall c | 10 <= c < 15 :: CellOf(NODES[10][c]) == (10, c) {}
  lemma RowInverse10D() ensures forall c | 15 <= c < 20 :: CellOf(NODES[10][c]) == (10, c) {}
  lemma RowInverse11A() ensures forall c | 0 <= c < 5 :: CellOf(NODES[11][c]) == (11, c) {}
  lemma RowInverse11B() ensures forall c | 5 <= c < 10 :: CellOf(NODES[11][c]) == (11, c) {}
  lemma RowInverse11C() ensures forall c | 10 <= c < 15 :: CellOf(NODES[11][c]) == (11, c) {}
  lemma RowInverse11D() ensures forall c | 15 <= c < 20 :: CellOf(NODES[11][c]) == (11, c) {}
  lemma RowInverse12A() ensures forall c | 0 <= c < 5 :: CellOf(NODES[12][c]) == (12, c) {}
  lemma RowInverse12B() ensures forall c | 5 <= c < 10 :: CellOf(NODES[12][c]) == (12, c) {}
  lemma RowInverse12C() ensures forall c | 10 <= c < 15 :: CellOf(NODES[12][c]) == (12, c) {}
  lemma RowInverse12D() ensures forall c | 15 <= c < 20 :: CellOf(NODES[12][c]) == (12, c) {}
  lemma RowInverse13A() ensures forall c | 0 <= c < 5 :: CellOf(NODES[13][c]) == (13, c) {}
  lemma RowInverse13B() ensures forall c | 5 <= c < 10 :: CellOf(NODES[13][c]) == (13, c) {}
  lemma RowInverse13C() ensures forall c | 10 <= c < 15 :: CellOf(NODES[13][c]) == (13, c) {}
  lemma RowInverse13D() ensures forall c | 15 <= c < 20 :: CellOf(NODES[13][c]) == (13, c) {}
  lemma RowInverse14A() ensures forall c | 0 <= c < 5 :: CellOf(NODES[14][c]) == (14, c) {}
  lemma RowInverse14B() ensures forall c | 5 <= c < 10 :: CellOf(NODES[14][c]) == (14, c) {}
  lemma RowInverse14C() ensures forall c | 10 <= c < 15 :: CellOf(NODES[14][c]) == (14, c) {}
  lemma RowInverse14D() ensures forall c | 15 <= c < 20 :: CellOf(NODES[14][c]) == (14, c) {}
  lemma RowInverse15A() ensures forall c | 0 <= c < 5 :: CellOf(NODES[15][c]) == (15, c) {}
  lemma RowInverse15B() ensures forall c | 5 <= c < 10 :: CellOf(NODES[15][c]) == (15, c) {}
  lemma RowInverse15C() ensures forall c | 10 <= c < 15 :: CellOf(NODES[15][c]) == (15, c) {}
  lemma RowInverse15D() ensures forall c | 15 <= c < 20 :: CellOf(NODES[15][c]) == (15, c) {}
  lemma RowInverse16A() ensures forall c | 0 <= c < 5 :: CellOf(NODES[16][c]) == (16, c) {}
  lemma RowInverse16B() ensures forall c | 5 <= c < 10 :: CellOf(NODES[16][c]) == (16, c) {}
  lemma RowInverse16C() ensures forall c | 10 <= c < 15 :: CellOf(NODES[16][c]) == (16, c) {}
  lemma RowInverse16D() ensures forall c | 15 <= c < 20 :: CellOf(NODES[16][c]) == (16, c) {}
  lemma RowInverse17A() ensures forall c | 0 <= c < 5 :: CellOf(NODES[17][c]) == (17, c) {}
  lemma RowInverse17B() ensures forall c | 5 <= c < 10 :: CellOf(NODES[17][c]) == (17, c) {}
  lemma RowInverse17C() ensures forall c | 10 <= c < 15 :: CellOf(NODES[17][c]) == (17, c) {}
  lemma RowInverse17D() ensures forall c | 15 <= c < 20 :: CellOf(NODES[17][c]) == (17, c) {}
  lemma RowInverse18A() ensures forall c | 0 <= c < 5 :: CellOf(NODES[18][c]) == (18, c) {}
  lemma RowInverse18B() ensures forall c | 5 <= c < 10 :: CellOf(NODES[18][c]) == (18, c) {}
  lemma RowInverse18C() ensures forall c | 10 <= c < 15 :: CellOf(NODES[18][c]) == (18, c) {}
  lemma RowInverse18D() ensures forall c | 15 <= c < 20 :: CellOf(NODES[18][c]) == (18, c) {}
  lemma RowInverse19A() ensures forall c | 0 <= c < 5 :: CellOf(NODES[19][c]) == (19, c) {}
  lemma RowInverse19B() ensures forall c | 5 <= c < 10 :: CellOf(NODES[19][c]) == (19, c) {}
  lemma RowInverse19C() ensures forall c | 10 <= c < 15 :: CellOf(NODES[19][c]) == (19, c) {}
  lemma RowInverse19D() ensures forall c | 15 <= c < 20 :: CellOf(NODES[19][c]) == (19, c) {}

  lemma CellInverse(r: int, c: int)
    requires IsCell(r, c)
    ensures CellOf(NODES[r][c]) == (r, c)
  {
    if r == 0 { RowInverse0A(); RowInverse0B(); RowInverse0C(); RowInverse0D(); }
    else if r == 1 { RowInverse1A(); RowInverse1B(); RowInverse1C(); RowInverse1D(); }
    else if r == 2 { RowInverse2A(); RowInverse2B(); RowInverse2C(); RowInverse2D(); }
    else if r == 3 { RowInverse3A(); RowInverse3B(); RowInverse3C(); RowInverse3D(); }
    else if r == 4 { RowInverse4A(); RowInverse4B(); RowInverse4C(); RowInverse4D(); }
    else if r == 5 { RowInverse5A(); RowInverse5B(); RowInverse5C(); RowInverse5D(); }
    else if r == 6 { RowInverse6A(); RowInverse6B(); RowInverse6C(); RowInverse6D(); }
    else if r == 7 { RowInverse7A(); RowInverse7B(); RowInverse7C(); RowInverse7D(); }
    else if r == 8 { RowInverse8A(); RowInverse8B(); RowInverse8C(); RowInverse8D(); }
    else if r == 9 { RowInverse9A(); RowInverse9B(); RowInverse9C(); RowInverse9D(); }
    else if r == 10 { RowInverse10A(); RowInverse10B(); RowInverse10C(); RowInverse10D(); }
    else if r == 11 { RowInverse11A(); RowInverse11B(); RowInverse11C(); RowInverse11D(); }
    else if r == 12 { RowInverse12A(); RowInverse12B(); RowInverse12C(); RowInverse12D(); }
    else if r == 13 { RowInverse13A(); RowInverse13B(); RowInverse13C(); RowInverse13D(); }
    else if r == 14 { RowInverse14A(); RowInverse14B(); RowInverse14C(); RowInverse14D(); }
    else if r == 15 { RowInverse15A(); RowInverse15B(); RowInverse15C(); RowInverse15D(); }
    else if r == 16 { RowInverse16A(); RowInverse16B(); RowInverse16C(); RowInverse16D(); }
    else if r == 17 { RowInverse17A(); RowInverse17B(); RowInverse17C(); RowInverse17D(); }
    else if r == 18 { RowInverse18A(); RowInverse18B(); RowInverse18C(); RowInverse18D(); }
    else { RowInverse19A(); RowInverse19B(); RowInverse19C(); RowInverse19D(); }
  }

  /** Every index occurs in exactly one cell. */
  lemma CellsInjective(r1: int, c1: int, r2: int, c2: int)
    requires IsCell(r1, c1) && IsCell(r2, c2)
    requires NODES[r1][c1] == NODES[r2][c2]
    ensures r1 == r2 && c1 == c2
  {
    CellInverse(r1, c1);
    CellInverse(r2, c2);
  }

  /** No cell holds 0, so the falsy test on a previous index never mistakes a
      real cell for "no previous click". */
  lemma NoZeroCell(r: int, c: int)
    requires IsCell(r, c)
    ensures NODES[r][c] != 0
  {
    CellInverse(r, c);
    assert CellOf(0) == (-1, -1);
  }

  lemma OnGridNotZero(v: int)
    requires OnGrid(v)
    ensures v != 0
  {
    var r, c :| IsCell(r, c) && NODES[r][c] == v;
    NoZeroCell(r, c);
  }

  // ---------------------------------------------------------------------------
  // Position lookup.

  /** Array.prototype.indexOf: the first column holding v, or -1. */
  function IndexOf(row: seq<int>, v: int): (c: int)
    ensures -1 <= c < |row|
    ensures c >= 0 ==> row[c] == v && forall j | 0 <= j < c :: row[j] != v
    ensures c == -1 ==> forall j | 0 <= j < |row| :: row[j] != v
  {
    if |row| == 0 then -1
    else if row[|row| - 1] == v && IndexOf(row[..|row| - 1], v) == -1 then |row| - 1
    else IndexOf(row[..|row| - 1], v)
  }

  /** The (row, col) the forEach scan over a table holds after visiting rows
      0 .. k-1: the last of them where indexOf succeeds, or (-1, -1). */
  function ScanRows(table: seq<seq<int>>, v: int, k: nat): (int, int)
    requires k <= |table|
  {
    if k == 0 then (-1, -1)
    else if IndexOf(table[k - 1], v) > -1 then (k - 1, IndexOf(table[k - 1], v))
    else ScanRows(table, v, k - 1)
  }

  lemma {:induction false} ScanRowsFinds(v: int, k: nat, r: int, c: int)
    requires k <= |NODES| && IsCell(r, c) && NODES[r][c] == v && r < k
    ensures ScanRows(NODES, v, k) == (r, c)
  {
    var i := IndexOf(NODES[k - 1], v);
    if k - 1 == r {
      assert i > -1;
      CellsInjective(r, i, r, c);
    } else {
      if i > -1 {
        CellsInjective(k - 1, i, r, c);
      }
      ScanRowsFinds(v, k - 1, r, c);
    }
  }

  lemma {:induction false} ScanRowsMisses(v: int, k: nat)
    requires k <= |NODES| && !OnGrid(v)
    ensures ScanRows(NODES, v, k) == (-1, -1)
  {
    if k > 0 {
      ScanRowsMisses(v, k - 1);
    }
  }

  /** findNodePosition: the cell holding v, or (-1, -1) when no cell does. */
  function PositionOf(v: int): (p: (int, int))
    ensures OnGrid(v) ==> IsCell(p.0, p.1) && NODES[p.0][p.1] == v
    ensures !OnGrid(v) ==> p == (-1, -1)
  {
    if OnGrid(v) then
      var r, c :| IsCell(r, c) && NODES[r][c] == v;
      ScanRowsFinds(v, |NODES|, r, c);
      ScanRows(NODES, v, |NODES|)
    else
      ScanRowsMisses(v, |NODES|);
      ScanRows(NODES, v, |NODES|)
  }

  /** The scan returns the very cell: the lookup inverts the table. */
  lemma PositionOfCell(r: int, c: int)
    requires IsCell(r, c)
    ensures PositionOf(NODES[r][c]) == (r, c)
  {
    var p := PositionOf(NODES[r][c]);
    CellsInjective(p.0, p.1, r, c);
  }

  /** The forEach loop of findNodePosition (and of the other NODES.forEach
      lookups), over any table: each row whose indexOf finds v overwrites
      (row, col). */
  method ScanTable(table: seq<seq<int>>, v: int) returns (row: int, col: int)
    ensures (row, col) == ScanRows(table, v, |table|)
  {
    row, col := -1, -1;
    var i := 0;
    while i < |table|
      invariant 0 <= i <= |table|
      invariant (row, col) == ScanRows(table, v, i)
    {
      var c := IndexOf(table[i], v);
      if c > -1 {
        row, col := i, c;
      }
      i := i + 1;
    }
  }

  /** findNodePosition: the scan over NODES finds the cell holding v. */
  method FindNodePosition(v: int) returns (row: int, col: int)
    ensures (row, col) == PositionOf(v)
    ensures OnGrid(v) ==> IsCell(row, col) && NODES[row][col] == v
    ensures !OnGrid(v) ==> row == -1 && col == -1
  {
    row, col := ScanTable(NODES, v);
    if OnGrid(v) {
      var r, c :| IsCell(r, c) && NODES[r][c] == v;
      ScanRowsFinds(v, |NODES|, r, c);
    } else {
      ScanRowsMisses(v, |NODES|);
    }
  }

  // ---------------------------------------------------------------------------
  // Neighbours: Up = row-1, Right = col+1, Down = row+1, Left = col-1, each
  // behind the editor's own bounds check.

  function DeltaRow(d: int): int { if d == UP then -1 else if d == DOWN then 1 else 0 }
  function DeltaCol(d: int): int { if d == RIGHT then 1 else if d == LEFT then -1 else 0 }

  /** The grid neighbour of v in direction d, if the bounds checks
      `row >= 1`, `col <= NODES[0].length - 2`, `row <= NODES.length - 2`,
      `col >= 1` let the editor look at it. */
  function Neighbour(v: int, d: int): Option<int>
    requires OnGrid(v) && IsDirection(d)
  {
    Rectangular();
    var p := PositionOf(v);
    var row, col := p.0, p.1;
    if d == UP then (if row >= 1 then Some(NODES[row - 1][col]) else None)
    else if d == RIGHT then (if col <= |NODES[0]| - 2 then Some(NODES[row][col + 1]) else None)
    else if d == DOWN then (if row <= |NODES| - 2 then Some(NODES[row + 1][col]) else None)
    else (if col >= 1 then Some(NODES[row][col - 1]) else None)
  }

  /** The bounds checks admit exactly the cells of the table: a neighbour
      exists iff the offset cell exists, and it is that cell's index. */
  lemma NeighbourCell(v: int, d: int)
    requires OnGrid(v) && IsDirection(d)
    ensures Neighbour(v, d).Some? <==> IsCell(PositionOf(v).0 + DeltaRow(d), PositionOf(v).1 + DeltaCol(d))
    ensures Neighbour(v, d).Some? ==> Neighbour(v, d).value == NODES[PositionOf(v).0 + DeltaRow(d)][PositionOf(v).1 + DeltaCol(d)]
  {
    Rectangular();
    if d == UP {} else if d == RIGHT {} else if d == DOWN {} else {}
  }

  /** A neighbour sits one step away in exactly the offset of d. */
  lemma NeighbourPosition(v: int, d: int)
    requires OnGrid(v) && IsDirection(d) && Neighbour(v, d).Some?
    ensures OnGrid(Neighbour(v, d).value)
    ensures PositionOf(Neighbour(v, d).value) == (PositionOf(v).0 + DeltaRow(d), PositionOf(v).1 + DeltaCol(d))
  {
    var p := PositionOf(v);
    NeighbourCell(v, d);
    PositionOfCell(p.0 + DeltaRow(d), p.1 + DeltaCol(d));
  }

  /** Adjacency is symmetric: v is w's neighbour in the opposite direction. */
  lemma NeighbourSymmetric(v: int, d: int)
    requires OnGrid(v) && IsDirection(d) && Neighbour(v, d).Some?
    ensures OnGrid(Neighbour(v, d).value)
    ensures Neighbour(Neighbour(v, d).value, Opposite(d)) == Some(v)
  {
    var w := Neighbour(v, d).value;
    var p := PositionOf(v);
    NeighbourPosition(v, d);
    assert DeltaRow(d) + DeltaRow(Opposite(d)) == 0 && DeltaCol(d) + DeltaCol(Opposite(d)) == 0;
    NeighbourCell(w, Opposite(d));
    assert IsCell(p.0, p.1);
  }

  /** A cell is never its own neighbour. */
  lemma NeighbourIsOther(v: int, d: int)
    requires OnGrid(v) && IsDirection(d) && Neighbour(v, d).Some?
    ensures Neighbour(v, d).value != v
  {
    NeighbourPosition(v, d);
  }
}
