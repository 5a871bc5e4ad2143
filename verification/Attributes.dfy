/** The repositories' `setattr` loops. */
module Attributes {
  function AssignAll<R, F>(row: R, fields: seq<F>, assign: (R, F) -> R): R {
    if fields == [] then row else AssignAll(assign(row, fields[0]), fields[1..], assign)
  }

  /** One turn of the loop, from field `k` on. */
  lemma AssignFrom<R, F>(row: R, fields: seq<F>, k: nat, assign: (R, F) -> R) returns (next: R)
    requires k < |fields|
    ensures next == assign(row, fields[k])
    ensures AssignAll(row, fields[k..], assign) == AssignAll(next, fields[k + 1..], assign)
  {
    next := assign(row, fields[k]);
    assert fields[k..][1..] == fields[k + 1..];
  }

  lemma {:induction false} AssignLast<R, F>(row: R, fields: seq<F>, assign: (R, F) -> R)
    requires fields != []
    ensures AssignAll(row, fields, assign) ==
            assign(AssignAll(row, fields[..|fields| - 1], assign), fields[|fields| - 1])
  {
    if |fields| > 1 {
      AssignLast(assign(row, fields[0]), fields[1..], assign);
      assert fields[1..][..|fields| - 2] == fields[..|fields| - 1][1..];
    }
  }

  method SetAttributes<R, F>(row: R, fields: seq<F>, assign: (R, F) -> R) returns (r: R)
    ensures r == AssignAll(row, fields, assign)
  {
    r := row;
    for k := 0 to |fields|
      invariant r == AssignAll(row, fields[..k], assign)
    {
      r := assign(r, fields[k]);
      AssignLast(row, fields[..k + 1], assign);
      assert fields[..k + 1][..k] == fields[..k];
    }
    assert fields[..|fields|] == fields;
  }
}
