/**
 * The candidate class hierarchy flattened into one closed enumeration with
 * two traits: role-scoped kinds (subclasses of `RoleFile`) take their
 * standards version from the enclosing role's `meta/main.yml`; unversioned
 * kinds (subclasses of `Unversioned`) switch off `expected_version` once they
 * are built.
 */
module Kinds {

  datatype Kind =
    | Task | Handler | RoleVars | GroupVars | HostVars | Meta | Code
    | Inventory | Rolesfile | Makefile | Template | File | Playbook | Doc
    | Vars  // a class of its own that the classifier never produces

  /** A subclass of `RoleFile`. */
  predicate RoleScoped(k: Kind) {
    match k
    case Task | Handler | RoleVars | Meta | Template | File => true
    case _ => false
  }

  /** A subclass of `Unversioned` (directly or through `InventoryVars`). */
  predicate Unversioned(k: Kind) {
    match k
    case HostVars | GroupVars | Inventory | Code | Doc | Makefile | Rolesfile => true
    case _ => false
  }

  /** `type(self).__name__.lower()`: the word the standards' `types` lists name. */
  function ClassName(k: Kind): string {
    match k
    case Task => "task"
    case Handler => "handler"
    case RoleVars => "rolevars"
    case GroupVars => "groupvars"
    case HostVars => "hostvars"
    case Meta => "meta"
    case Code => "code"
    case Inventory => "inventory"
    case Rolesfile => "rolesfile"
    case Makefile => "makefile"
    case Template => "template"
    case File => "file"
    case Playbook => "playbook"
    case Doc => "doc"
    case Vars => "vars"
  }

  /**
   * The `filetype` attribute: the lower-cased class name, except that `Task`
   * and `Handler` overwrite it with the plural directory name.
   */
  function FileType(k: Kind): (t: string)
    ensures k !in {Task, Handler} ==> t == ClassName(k)
    ensures k == Task ==> t == "tasks" && t != ClassName(k)
    ensures k == Handler ==> t == "handlers" && t != ClassName(k)
  {
    match k
    case Task => "tasks"
    case Handler => "handlers"
    case _ => ClassName(k)
  }

  /** No class is both a role file and unversioned; `Playbook` and `Vars` are neither. */
  lemma TraitsDisjoint(k: Kind)
    ensures !(RoleScoped(k) && Unversioned(k))
    ensures !RoleScoped(k) && !Unversioned(k) <==> k in {Playbook, Vars}
  {
  }

  /** Distinct kinds have distinct class names, so gating on the name is gating on the kind. */
  lemma ClassNameInjective(a: Kind, b: Kind)
    ensures ClassName(a) == ClassName(b) ==> a == b
  {
  }
}
