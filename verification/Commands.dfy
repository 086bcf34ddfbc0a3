/** The commands that clients put through consensus: the dictionaries built by the
    acquire and release handlers of the lock manager. */
module Commands {
  import opened Options

  type Resource = string
  type Client = string

  datatype Mode = Shared | Exclusive

  /** An acquire that names no lease gets the default of the node that applies it.
      `Other` is every dictionary the applier ignores: an unknown action, or a lock type
      outside the enumeration (the applier raises and the commit loop logs it). */
  datatype Command =
    | Acquire(resource: Resource, client: Client, mode: Mode, lease: Option<real>)
    | Release(resource: Resource, client: Client)
    | Other
}
