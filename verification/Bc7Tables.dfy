/**
 The partition and anchor tables of BC7 (src/backend/bcn.c:134-218; chapter 20,
 BPTC, of the Khronos Data Format Specification 1.3): which subset each of the
 sixteen pixels of a partition is in, and the anchor of every subset, the pixel
 whose index is stored with one bit less. The first subset's anchor is pixel 0.
 */
module Bc7Tables {

  datatype Partition = Partition(row: string, second: nat, third: nat)

  /** Every anchor lies in its own subset, whatever the other pixels are in. */
  predicate TwoAnchored(q: Partition) {
    && |q.row| == 16 && q.second < 16
    && q.row[0] == '0' && q.row[q.second] == '1'
    && forall k :: 0 <= k < 16 ==> q.row[k] in "01"
  }

  predicate ThreeAnchored(q: Partition) {
    && |q.row| == 16 && q.second < 16 && q.third < 16
    && q.row[0] == '0' && q.row[q.second] == '1' && q.row[q.third] == '2'
    && forall k :: 0 <= k < 16 ==> q.row[k] in "012"
  }

  function Two0(p: nat): (q: Partition)
    ensures TwoAnchored(q)
  {
    match p
    case 0 => Partition("0011001100110011", 15, 0)
    case 1 => Partition("0001000100010001", 15, 0)
    case 2 => Partition("0111011101110111", 15, 0)
    case 3 => Partition("0001001100110111", 15, 0)
    case 4 => Partition("0000000100010011", 15, 0)
    case 5 => Partition("0011011101111111", 15, 0)
    case 6 => Partition("0001001101111111", 15, 0)
    case _ => Partition("0000000100110111", 15, 0)
  }

  function Two1(p: nat): (q: Partition)
    ensures TwoAnchored(q)
  {
    match p
    case 8 => Partition("0000000000010011", 15, 0)
    case 9 => Partition("0011011111111111", 15, 0)
    case 10 => Partition("0000000101111111", 15, 0)
    case 11 => Partition("0000000000010111", 15, 0)
    case 12 => Partition("0001011111111111", 15, 0)
    case 13 => Partition("0000000011111111", 15, 0)
    case 14 => Partition("0000111111111111", 15, 0)
    case _ => Partition("0000000000001111", 15, 0)
  }

  function Two2(p: nat): (q: Partition)
    ensures TwoAnchored(q)
  {
    match p
    case 16 => Partition("0000100011101111", 15, 0)
    case 17 => Partition("0111000100000000", 2, 0)
    case 18 => Partition("0000000010001110", 8, 0)
    case 19 => Partition("0111001100010000", 2, 0)
    case 20 => Partition("0011000100000000", 2, 0)
    case 21 => Partition("0000100011001110", 8, 0)
    case 22 => Partition("0000000010001100", 8, 0)
    case _ => Partition("0111001100110001", 15, 0)
  }

  function Two3(p: nat): (q: Partition)
    ensures TwoAnchored(q)
  {
    match p
    case 24 => Partition("0011000100010000", 2, 0)
    case 25 => Partition("0000100010001100", 8, 0)
    case 26 => Partition("0110011001100110", 2, 0)
    case 27 => Partition("0011011001101100", 2, 0)
    case 28 => Partition("0001011111101000", 8, 0)
    case 29 => Partition("0000111111110000", 8, 0)
    case 30 => Partition("0111000110001110", 2, 0)
    case _ => Partition("0011100110011100", 2, 0)
  }

  function Two4(p: nat): (q: Partition)
    ensures TwoAnchored(q)
  {
    match p
    case 32 => Partition("0101010101010101", 15, 0)
    case 33 => Partition("0000111100001111", 15, 0)
    case 34 => Partition("0101101001011010", 6, 0)
    case 35 => Partition("0011001111001100", 8, 0)
    case 36 => Partition("0011110000111100", 2, 0)
    case 37 => Partition("0101010110101010", 8, 0)
    case 38 => Partition("0110100101101001", 15, 0)
    case _ => Partition("0101101010100101", 15, 0)
  }

  function Two5(p: nat): (q: Partition)
    ensures TwoAnchored(q)
  {
    match p
    case 40 => Partition("0111001111001110", 2, 0)
    case 41 => Partition("0001001111001000", 8, 0)
    case 42 => Partition("0011001001001100", 2, 0)
    case 43 => Partition("0011101111011100", 2, 0)
    case 44 => Partition("0110100110010110", 2, 0)
    case 45 => Partition("0011110011000011", 15, 0)
    case 46 => Partition("0110011010011001", 15, 0)
    case _ => Partition("0000011001100000", 6, 0)
  }

  function Two6(p: nat): (q: Partition)
    ensures TwoAnchored(q)
  {
    match p
    case 48 => Partition("0100111001000000", 6, 0)
    case 49 => Partition("0010011100100000", 2, 0)
    case 50 => Partition("0000001001110010", 6, 0)
    case 51 => Partition("0000010011100100", 8, 0)
    case 52 => Partition("0110110010010011", 15, 0)
    case 53 => Partition("0011011011001001", 15, 0)
    case 54 => Partition("0110001110011100", 2, 0)
    case _ => Partition("0011100111000110", 2, 0)
  }

  function Two7(p: nat): (q: Partition)
    ensures TwoAnchored(q)
  {
    match p
    case 56 => Partition("0110110011001001", 15, 0)
    case 57 => Partition("0110001100111001", 15, 0)
    case 58 => Partition("0111111010000001", 15, 0)
    case 59 => Partition("0001100011100111", 15, 0)
    case 60 => Partition("0000111100110011", 15, 0)
    case 61 => Partition("0011001111110000", 2, 0)
    case 62 => Partition("0010001011101110", 2, 0)
    case _ => Partition("0100010001110111", 15, 0)
  }

  /** In every two-subset partition the anchors lie in their own subsets. */
  function Two(p: nat): (q: Partition)
    ensures TwoAnchored(q)
  {
    if p < 8 then Two0(p)
    else if p < 16 then Two1(p)
    else if p < 24 then Two2(p)
    else if p < 32 then Two3(p)
    else if p < 40 then Two4(p)
    else if p < 48 then Two5(p)
    else if p < 56 then Two6(p)
    else Two7(p)
  }

  function Three0(p: nat): (q: Partition)
    ensures ThreeAnchored(q)
  {
    match p
    case 0 => Partition("0011001102212222", 3, 15)
    case 1 => Partition("0001001122112221", 3, 8)
    case 2 => Partition("0000200122112211", 15, 8)
    case 3 => Partition("0222002200110111", 15, 3)
    case 4 => Partition("0000000011221122", 8, 15)
    case 5 => Partition("0011001100220022", 3, 15)
    case 6 => Partition("0022002211111111", 15, 3)
    case _ => Partition("0011001122112211", 15, 8)
  }

  function Three1(p: nat): (q: Partition)
    ensures ThreeAnchored(q)
  {
    match p
    case 8 => Partition("0000000011112222", 8, 15)
    case 9 => Partition("0000111111112222", 8, 15)
    case 10 => Partition("0000111122222222", 6, 15)
    case 11 => Partition("0012001200120012", 6, 15)
    case 12 => Partition("0112011201120112", 6, 15)
    case 13 => Partition("0122012201220122", 5, 15)
    case 14 => Partition("0011011211221222", 3, 15)
    case _ => Partition("0011200122002220", 3, 8)
  }

  function Three2(p: nat): (q: Partition)
    ensures ThreeAnchored(q)
  {
    match p
    case 16 => Partition("0001001101121122", 3, 15)
    case 17 => Partition("0111001120012200", 3, 8)
    case 18 => Partition("0000112211221122", 8, 15)
    case 19 => Partition("0022002200221111", 15, 3)
    case 20 => Partition("0111011102220222", 3, 15)
    case 21 => Partition("0001000122212221", 3, 8)
    case 22 => Partition("0000001101220122", 6, 15)
    case _ => Partition("0000110022102210", 10, 8)
  }

  function Three3(p: nat): (q: Partition)
    ensures ThreeAnchored(q)
  {
    match p
    case 24 => Partition("0122012200110000", 5, 3)
    case 25 => Partition("0012001211222222", 8, 15)
    case 26 => Partition("0110122112210110", 8, 6)
    case 27 => Partition("0000011012211221", 6, 10)
    case 28 => Partition("0022110211020022", 8, 15)
    case 29 => Partition("0110011020022222", 5, 15)
    case 30 => Partition("0011012201220011", 15, 10)
    case _ => Partition("0000200022112221", 15, 8)
  }

  function Three4(p: nat): (q: Partition)
    ensures ThreeAnchored(q)
  {
    match p
    case 32 => Partition("0000000211221222", 8, 15)
    case 33 => Partition("0222002200120011", 15, 3)
    case 34 => Partition("0011001200220222", 3, 15)
    case 35 => Partition("0120012001200120", 5, 10)
    case 36 => Partition("0000111122220000", 6, 10)
    case 37 => Partition("0120120120120120", 10, 8)
    case 38 => Partition("0120201212010120", 8, 9)
    case _ => Partition("0011220011220011", 15, 10)
  }

  function Three5(p: nat): (q: Partition)
    ensures ThreeAnchored(q)
  {
    match p
    case 40 => Partition("0011112222000011", 15, 6)
    case 41 => Partition("0101010122222222", 3, 15)
    case 42 => Partition("0000000021212121", 15, 8)
    case 43 => Partition("0022112200221122", 5, 15)
    case 44 => Partition("0022001100220011", 15, 3)
    case 45 => Partition("0220122102201221", 15, 6)
    case 46 => Partition("0101222222220101", 15, 6)
    case _ => Partition("0000212121212121", 15, 8)
  }

  function Three6(p: nat): (q: Partition)
    ensures ThreeAnchored(q)
  {
    match p
    case 48 => Partition("0101010101012222", 3, 15)
    case 49 => Partition("0222011102220111", 15, 3)
    case 50 => Partition("0002111200021112", 5, 15)
    case 51 => Partition("0000211221122112", 5, 15)
    case 52 => Partition("0222011101110222", 5, 15)
    case 53 => Partition("0002111211120002", 8, 15)
    case 54 => Partition("0110011001102222", 5, 15)
    case _ => Partition("0000000021122112", 10, 15)
  }

  function Three7(p: nat): (q: Partition)
    ensures ThreeAnchored(q)
  {
    match p
    case 56 => Partition("0110011022222222", 5, 15)
    case 57 => Partition("0022001100110022", 10, 15)
    case 58 => Partition("0022112211220022", 8, 15)
    case 59 => Partition("0000000000002112", 13, 15)
    case 60 => Partition("0002000100020001", 15, 3)
    case 61 => Partition("0222122202221222", 12, 15)
    case 62 => Partition("0101222222222222", 3, 15)
    case _ => Partition("0111201122012220", 3, 8)
  }

  /** In every three-subset partition the anchors lie in their own subsets. */
  function Three(p: nat): (q: Partition)
    ensures ThreeAnchored(q)
  {
    if p < 8 then Three0(p)
    else if p < 16 then Three1(p)
    else if p < 24 then Three2(p)
    else if p < 32 then Three3(p)
    else if p < 40 then Three4(p)
    else if p < 48 then Three5(p)
    else if p < 56 then Three6(p)
    else Three7(p)
  }
}
