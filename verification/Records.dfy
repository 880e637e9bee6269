/** The records of the catalog; `S` is the type of their texts. */
module Records {
  import opened Basics

  type U32 = x: int | 0 <= x <= 0xFFFF_FFFF

  type I64 = x: int | -0x8000_0000_0000_0000 <= x < 0x8000_0000_0000_0000

  datatype FileRecord<S(==)> = FileRecord(
    id: U64, parent: U64, name: S, fullPath: S, size: U64, allocation: U64, attributes: U32,
    created: Option<I64>, modified: Option<I64>, accessed: Option<I64>)

  datatype DirectoryRecord<S(==)> = DirectoryRecord(
    id: U64, parent: Option<U64>, name: S, fullPath: S,
    directBytes: U64, totalBytes: U64, directEntries: U64, totalEntries: U64)

  datatype FileSystemKind = UnknownSystem | Ntfs | Refs | Fat32 | ExFat

  datatype VolumeRecord<S(==)> = VolumeRecord(
    id: U64, mountPoint: S, volumeLabel: Option<S>, fileSystem: FileSystemKind, totalBytes: U64, freeBytes: U64,
    root: U64)

  datatype ScanState = Idle | Initializing | Scanning | Indexing | Completed | Failed | Cancelled

  datatype ScanSession<S(==)> = ScanSession(
    id: U64, volume: U64, rootPath: S, state: ScanState,
    completedItems: U64, totalItems: U64, completedBytes: U64, totalBytes: U64)

  datatype FileLineage<S(==)> = FileLineage(
    file: U64, previousParent: U64, currentParent: U64, previousPath: S, currentPath: S, renamed: bool, moved: bool)

  datatype ChangeKind = Added | Removed | Modified | Renamed | Moved

  datatype FileChange<S(==)> = FileChange(file: U64, kind: ChangeKind, previousPath: Option<S>, currentPath: Option<S>)

  predicate UniqueIds<S(==)>(files: seq<FileRecord<S>>) {
    forall i, j :: 0 <= i < j < |files| ==> files[i].id != files[j].id
  }
}
