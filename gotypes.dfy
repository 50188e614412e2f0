/** The parts of go/types that the loader touches: packages and the
    path-to-package map that callers share with the importer. */
module GoTypes {

  /** A type-checked package, reduced to its import path and whether its
      Complete() method reports true; its object graph is not modelled. */
  datatype Package = Package(path: string, complete: bool)

  /** types.Unsafe, the built-in package "unsafe", which is always complete. */
  const Unsafe: Package := Package("unsafe", true)

  /** A map[string]*types.Package. Go maps are references: the importer and
      the caller that supplied Config.Loaded see the same entries. */
  class PackageCache {
    var entries: map<string, Package>

    constructor (entries: map<string, Package>)
      ensures this.entries == entries
    {
      this.entries := entries;
    }
  }
}
