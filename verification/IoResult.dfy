/** The unsynchronised result cell of `src/io/shared/result.rs`.

    The cell starts uninitialised. A written cell carries, besides the value the
    source stores, the name of the callback that wrote it; the program never reads
    that name, the theorems do. */
module IoResults {

  /** `Result<usize, NonZeroU32>`. */
  datatype IoRes = Ok(n: nat) | Err(code: nat)

  /** What a completion reports becomes: error 0 is success. */
  function Encode(result: nat, transferred: nat): (r: IoRes)
    ensures r.Err? ==> r.code == result && result != 0
    ensures r.Ok? ==> r.n == transferred && result == 0
  {
    if result == 0 then Ok(transferred) else Err(result)
  }

  /** What a reader can tell from the cell: whether it failed and how, and on success, but
      not on failure, how many bytes were transferred. */
  lemma EncodeKeeps(result: nat, transferred: nat, result': nat, transferred': nat)
    ensures Encode(result, transferred) == Encode(result', transferred') <==>
            result == result' && (result == 0 ==> transferred == transferred')
  {
  }

  /** Names a callback: `k >= 1` is the one the kernel owes operation `k`, any other
      key is a surplus one that no operation asked for. */
  type Key = int

  predicate Owed(k: Key) {
    k >= 1
  }

  datatype Cell = Uninit | Written(writer: Key, res: IoRes)

  class IoResult {
    var cell: Cell

    constructor ()
      ensures cell == Uninit
    {
      cell := Uninit;
    }

    method Set(writer: Key, result: IoRes)
      modifies this
      ensures cell == Written(writer, result)
    {
      cell := Written(writer, result);
    }

    method Get() returns (c: Cell)
      ensures c == cell
    {
      c := cell;
    }
  }
}
