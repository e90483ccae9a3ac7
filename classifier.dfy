/**
 * `classify`: the kind of artifact a file name denotes, decided by an ordered
 * chain of tests on the parent directory name, the basename and the
 * `/`-separated segments of the name as given; the first test that holds wins.
 */
module Classifier {
  import opened Wrappers
  import opened PyStrings
  import opened Kinds

  /** The position of each kind's rule in the chain; `Vars` has no rule and comes last. */
  function Priority(k: Kind): nat {
    match k
    case Task => 0
    case Handler => 1
    case RoleVars => 2
    case GroupVars => 3
    case HostVars => 4
    case Meta => 5
    case Code => 6
    case Inventory => 7
    case Rolesfile => 8
    case Makefile => 9
    case Template => 10
    case File => 11
    case Playbook => 12
    case Doc => 13
    case Vars => 14
  }

  /** What the tests look at: `parentdir`, `basename`, the split name and the name itself. */
  datatype PathView = PathView(parentdir: string, basename: string, segments: seq<string>, filename: string)

  function ViewOf(filename: string): PathView {
    PathView(ParentDirName(filename), Basename(filename), Split(filename, '/'), filename)
  }

  /** The test of each rule on its own, regardless of the rules before it. */
  predicate RuleHolds(k: Kind, v: PathView) {
    match k
    case Task => v.parentdir == "tasks"
    case Handler => v.parentdir == "handlers"
    case RoleVars => v.parentdir in ["vars", "defaults"]
    case GroupVars => "group_vars" in v.segments
    case HostVars => "host_vars" in v.segments
    case Meta => v.parentdir == "meta"
    case Code =>
      v.parentdir in ["library", "lookup_plugins", "callback_plugins", "filter_plugins"]
      || EndsWith(v.filename, ".py")
    case Inventory =>
      Contains(v.basename, "inventory") || Contains(v.basename, "hosts") || v.parentdir == "inventory"
    case Rolesfile => Contains(v.basename, "rolesfile") || Contains(v.basename, "requirements")
    case Makefile => Contains(v.basename, "Makefile")
    case Template => "templates" in v.segments || EndsWith(v.basename, ".j2")
    case File => "files" in v.segments
    case Playbook => EndsWith(v.basename, ".yml") || EndsWith(v.basename, ".yaml")
    case Doc => Contains(v.basename, "README")
    case Vars => false
  }

  /** The chain of conditional returns of `classify`, over the parts it computes. */
  function ClassifyView(v: PathView): Option<Kind> {
    var parentdir := v.parentdir;
    var basename := v.basename;
    if parentdir in ["tasks"] then Some(Task)
    else if parentdir in ["handlers"] then Some(Handler)
    else if parentdir in ["vars", "defaults"] then Some(RoleVars)
    else if "group_vars" in v.segments then Some(GroupVars)
    else if "host_vars" in v.segments then Some(HostVars)
    else if parentdir in ["meta"] then Some(Meta)
    else if parentdir in ["library", "lookup_plugins", "callback_plugins", "filter_plugins"]
      || EndsWith(v.filename, ".py") then Some(Code)
    else if Contains(basename, "inventory") || Contains(basename, "hosts")
      || parentdir in ["inventory"] then Some(Inventory)
    else if Contains(basename, "rolesfile") || Contains(basename, "requirements") then Some(Rolesfile)
    else if Contains(basename, "Makefile") then Some(Makefile)
    else if "templates" in v.segments || EndsWith(basename, ".j2") then Some(Template)
    else if "files" in v.segments then Some(File)
    else if EndsWith(basename, ".yml") || EndsWith(basename, ".yaml") then Some(Playbook)
    else if Contains(basename, "README") then Some(Doc)
    else None
  }

  /** `classify`: the kind whose test holds first in the chain, or `None`. */
  function Classify(filename: string): Option<Kind> {
    ClassifyView(ViewOf(filename))
  }

  /** `classify` never yields `Vars`, and a kind it yields has its own test holding. */
  lemma ClassifyResultHolds(filename: string)
    ensures Classify(filename) != Some(Vars)
    ensures Classify(filename).Some? ==> RuleHolds(Classify(filename).value, ViewOf(filename))
  {
    ResultRuleHolds(ViewOf(filename));
  }

  /**
   * First match wins: the chain yields `k` exactly when `k`'s test holds and
   * the test of every kind with an earlier rule fails.
   */
  lemma ClassifyViewIsFirstHoldingRule(v: PathView, k: Kind)
    ensures ClassifyView(v) == Some(k) <==>
      RuleHolds(k, v) && forall j: Kind :: Priority(j) < Priority(k) ==> !RuleHolds(j, v)
  {
    if ClassifyView(v) == Some(k) {
      forall j: Kind | Priority(j) < Priority(k) ensures !RuleHolds(j, v) {
        EarlierRuleFails(v, j);
      }
    }
    if RuleHolds(k, v) && forall j: Kind :: Priority(j) < Priority(k) ==> !RuleHolds(j, v) {
      var r := ClassifyView(v);
      assert r.Some? by {
        if r == None { NoneMeansNoRule(v, k); }
      }
      EarlierRuleFails(v, k);
      assert Priority(r.value) <= Priority(k);
      assert RuleHolds(r.value, v) by { ResultRuleHolds(v); }
      assert Priority(r.value) == Priority(k);
    }
  }

  /** Any kind with an earlier rule than the yielded one has a failing test. */
  lemma EarlierRuleFails(v: PathView, j: Kind)
    ensures ClassifyView(v).Some? && Priority(j) < Priority(ClassifyView(v).value) ==> !RuleHolds(j, v)
    ensures ClassifyView(v).None? ==> !RuleHolds(j, v)
  {
  }

  /** The yielded kind's own test holds. */
  lemma ResultRuleHolds(v: PathView)
    ensures ClassifyView(v).Some? ==> RuleHolds(ClassifyView(v).value, v)
  {
  }

  lemma NoneMeansNoRule(v: PathView, k: Kind)
    ensures ClassifyView(v) == None ==> !RuleHolds(k, v)
  {
    EarlierRuleFails(v, k);
  }

  /** The chain yields nothing exactly when none of the fourteen tests holds. */
  lemma ClassifyViewNoneIff(v: PathView)
    ensures ClassifyView(v) == None <==> forall k: Kind :: !RuleHolds(k, v)
  {
    if ClassifyView(v) == None {
      forall k: Kind ensures !RuleHolds(k, v) { NoneMeansNoRule(v, k); }
    } else {
      ResultRuleHolds(v);
    }
  }

  /** `classify` returns `None` exactly when none of the fourteen tests holds. */
  lemma ClassifyNoneIff(filename: string)
    ensures Classify(filename) == None <==> forall k: Kind :: !RuleHolds(k, ViewOf(filename))
  {
    ClassifyViewNoneIff(ViewOf(filename));
  }

  /** `classify` yields `k` exactly when `k`'s test holds and no earlier rule's test does. */
  lemma ClassifyIsFirstHoldingRule(filename: string, k: Kind)
    ensures Classify(filename) == Some(k) <==>
      RuleHolds(k, ViewOf(filename))
      && forall j: Kind :: Priority(j) < Priority(k) ==> !RuleHolds(j, ViewOf(filename))
  {
    ClassifyViewIsFirstHoldingRule(ViewOf(filename), k);
  }

  /** The parent directory rules come first: they decide before any other test is looked at. */
  lemma ParentDirDecides(v: PathView)
    ensures v.parentdir == "tasks" ==> ClassifyView(v) == Some(Task)
    ensures v.parentdir == "handlers" ==> ClassifyView(v) == Some(Handler)
    ensures v.parentdir == "vars" || v.parentdir == "defaults" ==> ClassifyView(v) == Some(RoleVars)
  {
  }

  /** A file directly inside a `tasks` directory is a Task, whatever else its name holds. */
  lemma TasksDirectoryIsTask(d: string, b: string)
    requires d == "" || d[|d| - 1] == '/'
    requires '/' !in b
    ensures Classify(d + "tasks" + "/" + b) == Some(Task)
  {
    ParentDirNameOf(d, "tasks", b);
    ParentDirDecides(ViewOf(d + "tasks" + "/" + b));
  }

  /** A file directly inside a `handlers` directory is a Handler, whatever else its name holds. */
  lemma HandlersDirectoryIsHandler(d: string, b: string)
    requires d == "" || d[|d| - 1] == '/'
    requires '/' !in b
    ensures Classify(d + "handlers" + "/" + b) == Some(Handler)
  {
    ParentDirNameOf(d, "handlers", b);
    ParentDirDecides(ViewOf(d + "handlers" + "/" + b));
  }

  /** A file directly inside `vars` is RoleVars even below `templates` or `group_vars`. */
  lemma VarsDirectoryIsRoleVars(d: string, b: string)
    requires d == "" || d[|d| - 1] == '/'
    requires '/' !in b
    ensures Classify(d + "vars" + "/" + b) == Some(RoleVars)
  {
    ParentDirNameOf(d, "vars", b);
    ParentDirDecides(ViewOf(d + "vars" + "/" + b));
  }

  /** Likewise for a file directly inside `defaults`. */
  lemma DefaultsDirectoryIsRoleVars(d: string, b: string)
    requires d == "" || d[|d| - 1] == '/'
    requires '/' !in b
    ensures Classify(d + "defaults" + "/" + b) == Some(RoleVars)
  {
    ParentDirNameOf(d, "defaults", b);
    ParentDirDecides(ViewOf(d + "defaults" + "/" + b));
  }

  /** A name without `/` is its own basename and only segment, in no directory. */
  lemma BareNameView(b: string)
    requires '/' !in b
    ensures ViewOf(b) == PathView("", b, [b], b)
  {
    BareName(b);
    SplitWithoutSeparator(b, '/');
  }

  /** A `vars` directory below `templates` still makes RoleVars: the parent rule comes first. */
  lemma TemplatesVarsIsRoleVars(p: string)
    requires p == "roles/x/templates/vars/a.yml"
    ensures Classify(p) == Some(RoleVars)
  {
    var d, b := p[..18], p[23..];
    assert p == d + "vars" + "/" + b;
    VarsDirectoryIsRoleVars(d, b);
  }

  /** A `vars` directory below `group_vars` makes RoleVars, not GroupVars. */
  lemma GroupVarsVarsIsRoleVars(p: string)
    requires p == "group_vars/vars/a.yml"
    ensures Classify(p) == Some(RoleVars)
  {
    var d, b := p[..11], p[16..];
    assert p == d + "vars" + "/" + b;
    VarsDirectoryIsRoleVars(d, b);
  }

  /** A bare name that names a requirements file, and no inventory, is a Rolesfile. */
  lemma RequirementsBareName(v: PathView)
    requires v.parentdir == "" && v.segments == [v.basename] && v.basename == v.filename
    requires v.basename !in ["group_vars", "host_vars"] && !EndsWith(v.filename, ".py")
    requires !Contains(v.basename, "inventory") && !Contains(v.basename, "hosts")
    requires StartsWith(v.basename, "requirements")
    ensures ClassifyView(v) == Some(Rolesfile)
  {
  }

  /** `requirements.yml` is a Rolesfile, not a Playbook. */
  lemma RequirementsIsRolesfile(p: string)
    requires p == "requirements.yml"
    ensures Classify(p) == Some(Rolesfile)
  {
    RequirementsView(p);
    RequirementsNameTests(p);
    RequirementsBareName(ViewOf(p));
  }

  lemma RequirementsNameTests(p: string)
    requires p == "requirements.yml"
    ensures !Contains(p, "inventory") && !Contains(p, "hosts")
    ensures StartsWith(p, "requirements") && !EndsWith(p, ".py")
  {
    MissingCharNotContained(p, "inventory", 2);
    MissingFirstCharNotContained(p, "hosts");
  }

  lemma RequirementsView(p: string)
    requires p == "requirements.yml"
    ensures ViewOf(p) == PathView("", p, [p], p)
  {
    BareNameView(p);
  }

  /** `hosts.yml` is Inventory, not a Playbook. */
  lemma HostsIsInventory(p: string)
    requires p == "hosts.yml"
    ensures Classify(p) == Some(Inventory)
  {
    assert StartsWith(p, "hosts");
    BareNameView(p);
  }

  /**
   * A name with a `files` segment is a File whenever no earlier rule claims
   * it: no parent directory rule, no `group_vars`, `host_vars` or `templates`
   * segment, no `.py` or `.j2` ending and none of the basename words.
   */
  lemma UnderFilesIsFile(v: PathView)
    requires "files" in v.segments
    requires "group_vars" !in v.segments && "host_vars" !in v.segments && "templates" !in v.segments
    requires v.parentdir !in ["tasks", "handlers", "vars", "defaults", "meta", "library", "lookup_plugins",
                              "callback_plugins", "filter_plugins", "inventory"]
    requires !EndsWith(v.filename, ".py") && !EndsWith(v.basename, ".j2")
    requires !Contains(v.basename, "inventory") && !Contains(v.basename, "hosts")
    requires !Contains(v.basename, "rolesfile") && !Contains(v.basename, "requirements")
    requires !Contains(v.basename, "Makefile")
    ensures ClassifyView(v) == Some(File)
  {
  }

  /** A `.yml` below `files` is a File, not a Playbook. */
  lemma FilesYamlIsFile(p: string)
    requires p == "roles/r/files/x.yml"
    ensures Classify(p) == Some(File)
  {
    var v := ViewOf(p);
    FilesYamlView(p);
    FilesYamlViewTests(v);
    UnderFilesIsFile(v);
  }

  lemma FilesYamlViewTests(v: PathView)
    requires v == PathView("files", "x.yml", ["roles", "r", "files", "x.yml"], "roles/r/files/x.yml")
    ensures "files" in v.segments
    ensures "group_vars" !in v.segments && "host_vars" !in v.segments && "templates" !in v.segments
    ensures v.parentdir !in ["tasks", "handlers", "vars", "defaults", "meta", "library", "lookup_plugins",
                             "callback_plugins", "filter_plugins", "inventory"]
    ensures !EndsWith(v.filename, ".py") && !EndsWith(v.basename, ".j2")
    ensures !Contains(v.basename, "inventory") && !Contains(v.basename, "hosts")
    ensures !Contains(v.basename, "rolesfile") && !Contains(v.basename, "requirements")
    ensures !Contains(v.basename, "Makefile")
  {
    XYamlNameTests(v.basename);
    assert v.segments[2] == "files";
    assert v.filename[|v.filename| - 1] == 'l';
  }

  lemma FilesYamlView(p: string)
    requires p == "roles/r/files/x.yml"
    ensures ViewOf(p) == PathView("files", "x.yml", ["roles", "r", "files", "x.yml"], p)
  {
    FilesYamlNames(p, p[..8], p[8..13], p[14..]);
    FilesYamlSegments(p);
  }

  lemma FilesYamlNames(p: string, d: string, q: string, b: string)
    requires d == "roles/r/" && q == "files" && b == "x.yml" && p == d + q + "/" + b
    ensures ParentDirName(p) == "files" && Basename(p) == "x.yml"
  {
    ParentDirNameOf(d, q, b);
  }

  lemma FilesYamlSegments(p: string)
    requires p == "roles/r/files/x.yml"
    ensures Split(p, '/') == ["roles", "r", "files", "x.yml"]
  {
    var segments := ["roles", "r", "files", "x.yml"];
    assert Join(segments, '/') == p by {
      assert segments[3..] == ["x.yml"];
      assert segments[2..] == ["files", "x.yml"];
      assert segments[1..] == ["r", "files", "x.yml"];
    }
    SplitJoin(segments, '/');
  }

  lemma XYamlNameTests(b: string)
    requires b == "x.yml"
    ensures !Contains(b, "inventory") && !Contains(b, "hosts")
    ensures !Contains(b, "rolesfile") && !Contains(b, "requirements")
    ensures !Contains(b, "Makefile") && !EndsWith(b, ".j2") && !EndsWith(b, ".py")
    ensures b !in ["group_vars", "host_vars", "templates"]
  {
    MissingFirstCharNotContained(b, "inventory");
    MissingFirstCharNotContained(b, "hosts");
    MissingFirstCharNotContained(b, "rolesfile");
    MissingFirstCharNotContained(b, "requirements");
    MissingFirstCharNotContained(b, "Makefile");
  }

  /** A bare name that passes none of the tests is left unclassified. */
  lemma UnmatchedBareName(v: PathView)
    requires v.parentdir == "" && v.segments == [v.basename] && v.basename == v.filename
    requires v.basename !in ["group_vars", "host_vars", "templates", "files"]
    requires !EndsWith(v.filename, ".py") && !EndsWith(v.basename, ".j2")
    requires !EndsWith(v.basename, ".yml") && !EndsWith(v.basename, ".yaml")
    requires !Contains(v.basename, "inventory") && !Contains(v.basename, "hosts")
    requires !Contains(v.basename, "rolesfile") && !Contains(v.basename, "requirements")
    requires !Contains(v.basename, "Makefile") && !Contains(v.basename, "README")
    ensures ClassifyView(v) == None
  {
  }

  /** A top-level `notes.txt` matches no rule and is left unclassified. */
  lemma NotesIsUnclassified(p: string)
    requires p == "notes.txt"
    ensures Classify(p) == None
  {
    NotesNameTests(p);
    BareNameView(p);
    UnmatchedBareName(ViewOf(p));
  }

  lemma NotesNameTests(b: string)
    requires b == "notes.txt"
    ensures !Contains(b, "inventory") && !Contains(b, "hosts")
    ensures !Contains(b, "rolesfile") && !Contains(b, "requirements")
    ensures !Contains(b, "Makefile") && !Contains(b, "README")
    ensures !EndsWith(b, ".py") && !EndsWith(b, ".j2") && !EndsWith(b, ".yml") && !EndsWith(b, ".yaml")
    ensures b !in ["group_vars", "host_vars", "templates", "files"]
  {
    MissingFirstCharNotContained(b, "inventory");
    MissingFirstCharNotContained(b, "hosts");
    MissingFirstCharNotContained(b, "rolesfile");
    MissingFirstCharNotContained(b, "requirements");
    MissingFirstCharNotContained(b, "Makefile");
    MissingFirstCharNotContained(b, "README");
  }
}
