/**
 * The view of a registry hive that the Amcache engine consumes. Decoding the
 * hive's on-disk format belongs to an external hive library; this module only
 * describes the keys and values that library hands back.
 */
module Registry {
  import opened Wrappers

  type byte = b: int | 0 <= b < 256

  /** A registry value: its name, its data as text, and its raw bytes. */
  datatype Value = Value(name: string, data: string, raw: seq<byte>)

  /**
   * A registry key. `lastWrite` is the key's last-write time in UTC ticks, or
   * None when the hive library has none for it (a nullable timestamp).
   */
  datatype Key = Key(
    name: string,
    path: string,
    lastWrite: Option<int>,
    values: seq<Value>,
    subKeys: seq<Key>)

  /** The two keys the engine asks the hive for: `Root\File` and `Root\Programs`. */
  datatype Tree = Tree(fileKey: Option<Key>, programsKey: Option<Key>)
}
