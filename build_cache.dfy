/** The on-disk build cache the compiled backends share: one directory per
    digest of the build's inputs, holding the binary once a build succeeded. */
module BuildCache {
  import opened Results

  /** The backend, and for Rust the toolchain, a build belongs to. */
  datatype Mode = RustcMode | CargoMode | CppMode

  /** The object whose JSON text is hashed to name a build directory. The
      digest is taken to be injective, so the model keys the cache by this
      object itself. */
  datatype CacheKey = CacheKey(mode: Mode, deps: Option<string>, source: string)

  /** The set of build directories that hold a binary. */
  class ArtifactCache {
    var built: set<CacheKey>

    constructor()
      ensures built == {}
    {
      built := {};
    }

    /** A build succeeded and left its binary behind. */
    method Record(key: CacheKey)
      modifies this
      ensures built == old(built) + {key}
    {
      built := built + {key};
    }
  }
}
