/** The two names every directory has. */
module DirectoryNames {
  predicate IsDot(name: string) {
    name == "." || name == ".."
  }

  /** The table of a new directory. */
  function NewDots(self: nat, parent: nat): map<string, nat> {
    map["." := self, ".." := parent]
  }
}
