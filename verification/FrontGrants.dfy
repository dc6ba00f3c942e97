/** Who is given which root: `set_principal_class_aname` and `retain_principal_roots` of crates/front/src/front.rs. */
module FrontGrants {
  import opened Prelude
  import opened Paths
  import opened FrontStore
  import opened FrontPaths
  import opened FrontRetain

  const ROOT_MISMATCH := "principal root path mismatch"
  const ID_MISMATCH := "principal id mismatch"

  /** `canonical_root_path`. */
  function RootText(path: string): string {
    if Trim(path) == "" then "/" else Trim(path)
  }

  /** `set_principal_class_aname`. Principals are required from then on even if the grant is at odds with the user's
      entry. */
  function Grant(s: Store, uname: string, principalId: string, aname: string, rootPath: string): (Store, Result<()>) {
    if uname == "" || principalId == "" || aname == "" then (s, Err(EPERM))
    else
      match LookupPath(s, rootPath)
      case Err(e) => (s, Err(e))
      case Ok(root) =>
        if root !in s.nodes then (s, Err(ENOENT))
        else if !s.nodes[root].body.Dir? then (s, Err(ENOTDIR))
        else
          var t := s.(principalsRequired := true);
          if uname in s.principals then
            var entry := s.principals[uname];
            if entry.rootPath != RootText(rootPath) then (t, Err(ROOT_MISMATCH))
            else if entry.principalId != principalId then (t, Err(ID_MISMATCH))
            else
              (t.(principals := s.principals[uname := entry.(root := root, anames := entry.anames + {aname})]), Ok(()))
          else
            (t.(principals := s.principals[uname := PrincipalRoot(root, RootText(rootPath), principalId, {aname})]),
             Ok(()))
  }

  /** `retain_principal_roots`. */
  function KeepPrincipals(s: Store, unames: set<string>): Store {
    s.(principals := map u | u in s.principals && u in unames :: s.principals[u])
  }

  /** Both touch nothing but the principals. */
  ghost predicate Aside(s: Store, t: Store) {
    t == s.(principals := t.principals, principalsRequired := t.principalsRequired, logCapacity := t.logCapacity)
  }

  lemma GrantIsAside(s: Store, uname: string, principalId: string, aname: string, rootPath: string)
    ensures Aside(s, Grant(s, uname, principalId, aname, rootPath).0)
  {
    hide LookupPath, Trim;
  }

  lemma GrantKeepsInv(s: Store, uname: string, principalId: string, aname: string, rootPath: string)
    requires Inv(s)
    ensures Inv(Grant(s, uname, principalId, aname, rootPath).0)
  {
    hide Inv, Grant;
    GrantIsAside(s, uname, principalId, aname, rootPath);
    SettingsAside(s, Grant(s, uname, principalId, aname, rootPath).0);
  }
}
