/** The deterministic helpers the generator calls but does not define, passed in as functions. */
module Externals {
  import opened Common
  import opened Schema

  /**
   * rand2 is the seed step; rand_rowkey, the two rand_obj overloads, expand, choose and
   * parse_rowkey produce keys, values and table names. Each is a total function of its inputs,
   * so equal inputs give equal outputs.
   */
  datatype Env = Env(
    rand2: int -> nat,
    randRowkey: (seq<RowkeyColumn>, int) -> Result<Rowkey>,
    randObj: (ObjType, int, int) -> Result<Obj>,
    randTypedObj: (ObjType, int) -> Result<Obj>,
    expand: string -> Result<string>,
    choose: (string, int) -> Option<string>,
    parseRowkey: string -> Result<Rowkey>)

  /** rand_obj(type, seed) yields a value of the requested type whenever it succeeds. */
  ghost predicate TypedValues(env: Env) {
    forall ty, seed :: env.randTypedObj(ty, seed).Ok? ==> env.randTypedObj(ty, seed).value.ty == ty
  }

  /** The seed after `k` applications of rand2. */
  function Walk(rand2: int -> nat, seed: int, k: nat): int {
    if k == 0 then seed else rand2(Walk(rand2, seed, k - 1))
  }
}
