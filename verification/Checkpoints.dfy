/** The environment both ingestion runtimes live in: a fallible key/value store for checkpoints. */
module Checkpoints {
  import opened Machine

  /** Stored bytes are UTF-8 text, or not. */
  datatype Stored = Utf8(text: string) | NotUtf8

  datatype StorageError = OperationFailed

  /** A failed operation leaves every cell unchanged. */
  class CheckpointStore {
    var cells: map<string, Stored>

    constructor ()
      ensures cells == map[]
    {
      cells := map[];
    }

    method Read(key: string) returns (r: Result<Option<Stored>, StorageError>)
      ensures r.Ok? ==> r.value == Get(cells, key)
    {
      var fails: bool := *;
      return if fails then Err(OperationFailed) else Ok(Get(cells, key));
    }

    method Write(key: string, value: Stored) returns (r: Result<(), StorageError>)
      modifies this
      ensures cells == if r.Ok? then old(cells)[key := value] else old(cells)
    {
      var fails: bool := *;
      if fails {
        return Err(OperationFailed);
      }
      cells := cells[key := value];
      return Ok(());
    }

    method Remove(key: string) returns (r: Result<(), StorageError>)
      modifies this
      ensures cells == if r.Ok? then old(cells) - {key} else old(cells)
    {
      var fails: bool := *;
      if fails {
        return Err(OperationFailed);
      }
      cells := cells - {key};
      return Ok(());
    }
  }
}
