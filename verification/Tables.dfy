/** Rows of a table, as a sequence, and the updates that SQL statements make to them. */
module Tables {

  /** `UPDATE … SET f WHERE p`. */
  function Update<T>(rows: seq<T>, p: T -> bool, f: T -> T): (r: seq<T>)
    ensures |r| == |rows|
    ensures forall i :: 0 <= i < |rows| ==> r[i] == if p(rows[i]) then f(rows[i]) else rows[i]
  {
    seq(|rows|, i requires 0 <= i < |rows| => if p(rows[i]) then f(rows[i]) else rows[i])
  }

  /** The rows that `DELETE … WHERE NOT p` leaves. */
  function Keep<T(!new)>(rows: seq<T>, p: T -> bool): (r: seq<T>)
    ensures forall row :: row in r <==> row in rows && p(row)
  {
    if |rows| == 0 then [] else (if p(rows[0]) then [rows[0]] else []) + Keep(rows[1..], p)
  }

  /** The first position that satisfies `p`, or the length. */
  function Find<T>(rows: seq<T>, p: T -> bool): (i: nat)
    ensures i <= |rows|
    ensures i < |rows| ==> p(rows[i])
    ensures forall j :: 0 <= j < i ==> !p(rows[j])
  {
    if |rows| == 0 then 0 else if p(rows[0]) then 0 else 1 + Find(rows[1..], p)
  }
}
