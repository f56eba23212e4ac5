/** Windows' side of the read scope: a fixed directory tree, fixed owners, and DACLs; every call may
    fail (src/broker/BrokerReadScope.cpp). */
module FileSystems {
  import opened Text
  import opened Paths
  import opened Acl
  import opened Wrappers
  import opened Win32
  import opened ScopeWorld

  /** One enumeration record of a directory, and what a handle to an object tells. */
  datatype Record = Record(name: Wide, isDirectory: bool)
  datatype Node = Node(isDirectory: bool, isReparse: bool, records: seq<Record>)

  predicate IsSubfolder(record: Record) {
    record.name != Lit(".") && record.name != Lit("..") && record.isDirectory
  }

  /** `q` lies in a subfolder that enumerating `p` shows. */
  predicate Listed(node: Node, p: Wide, q: Wide) {
    exists i :: 0 <= i < |node.records| && IsSubfolder(node.records[i]) && Within(q, Child(p, node.records[i].name))
  }

  ghost function Unlisted(nodes: map<Wide, Node>): set<(Wide, Wide)> {
    set p, q | p in nodes && q in nodes && Within(q, p) && q != p && !Listed(nodes[p], p, q) :: (p, q)
  }

  /** Windows' side: a fixed tree, fixed owners, and the DACLs. Any call may fail with any error and
      then changes nothing. `history` is the proof's record of the DACLs after each write. */
  class FileSystem {
    const nodes: map<Wide, Node>
    const owners: map<Wide, Sid>
    const volumeRoots: map<Wide, Wide>
    const emptyDrives: set<Wide>
    const canonical: map<Wide, Wide>
    var dacls: Dacls
    ghost var history: seq<Dacls>

    constructor (nodes: map<Wide, Node>, owners: map<Wide, Sid>, volumeRoots: map<Wide, Wide>,
                 emptyDrives: set<Wide>, canonical: map<Wide, Wide>, dacls: Dacls)
      ensures this.nodes == nodes && this.owners == owners && this.volumeRoots == volumeRoots
      ensures this.emptyDrives == emptyDrives && this.canonical == canonical
      ensures this.dacls == dacls && history == []
    {
      this.nodes, this.owners, this.volumeRoots := nodes, owners, volumeRoots;
      this.emptyDrives, this.canonical, this.dacls, history := emptyDrives, canonical, dacls, [];
    }

    function OwnerOf(path: Wide): Option<Sid> {
      if path in owners then Some(owners[path]) else None
    }

    /** Every folder is reached by listing the folders above it, and folders have DACLs. */
    ghost predicate Closed()
      reads this
    {
      nodes.Keys <= dacls.Keys && volumeRoots.Values <= nodes.Keys && Unlisted(nodes) == {}
    }

    method GetSecurityInfo(path: Wide, open: bool) returns (error: Error, dacl: Dacl)
      ensures error == ERROR_SUCCESS ==> open && path in dacls && dacl == dacls[path]
    {
      error := *;
      dacl := [];
      if error == ERROR_SUCCESS {
        if open && path in dacls {
          dacl := dacls[path];
        } else {
          error := ERROR_ACCESS_DENIED;
        }
      }
    }

    method SetObjectDacl(path: Wide, dacl: Dacl) returns (error: Error)
      requires path in dacls
      modifies this`dacls, this`history
      ensures error == ERROR_SUCCESS ==> dacls == old(dacls)[path := dacl] && history == old(history) + [dacls]
      ensures error != ERROR_SUCCESS ==> dacls == old(dacls) && history == old(history)
    {
      error := *;
      if error == ERROR_SUCCESS {
        dacls := dacls[path := dacl];
        history := history + [dacls];
      }
    }

    /** `GetFileInformationByHandleEx` on a pinned handle. */
    method Inspect(path: Wide, open: bool) returns (error: Error, node: Node)
      ensures error == ERROR_SUCCESS ==> path in nodes && node == nodes[path]
    {
      error := *;
      node := Node(false, false, []);
      if error == ERROR_SUCCESS {
        if open && path in nodes {
          node := nodes[path];
        } else {
          error := ERROR_ACCESS_DENIED;
        }
      }
    }

    /** `OpenRelativeFile`: a success pins the object. */
    method Open(path: Wide) returns (error: Error)
      ensures error == ERROR_SUCCESS ==> path in nodes
    {
      error := *;
      if error == ERROR_SUCCESS && path !in nodes {
        error := ERROR_ACCESS_DENIED;
      }
    }

    method OpenVolumeRoot(volume: Wide) returns (error: Error, root: Wide, persistentAcls: bool, removable: bool)
      ensures error == ERROR_SUCCESS ==> volume in volumeRoots && root == volumeRoots[volume]
      ensures error == ERROR_NOT_READY && removable ==> volume in emptyDrives
    {
      error, persistentAcls, removable := *, *, *;
      root := [];
      if error == ERROR_SUCCESS {
        if volume in volumeRoots {
          root := volumeRoots[volume];
        } else {
          error := ERROR_ACCESS_DENIED;
        }
      }
      if error == ERROR_NOT_READY {
        removable := removable && volume in emptyDrives;
      }
    }

    /** `CanonicalDirectory`: the real name of an existing directory without reparse points. */
    method CanonicalDirectory(directory: Wide) returns (error: Error, name: Wide)
      ensures error == ERROR_SUCCESS ==> directory in canonical && name == canonical[directory]
    {
      error, name := *, [];
      if error == ERROR_SUCCESS {
        if directory in canonical {
          name := canonical[directory];
        } else {
          error := ERROR_ACCESS_DENIED;
        }
      }
    }

    /** `NtOpenDirectoryObject` on a namespace directory. */
    method OpenNamespace(path: Wide) returns (error: Error)
      ensures error == ERROR_SUCCESS ==> path in dacls && path !in nodes
    {
      error := *;
      if error == ERROR_SUCCESS && (path !in dacls || path in nodes) {
        error := ERROR_ACCESS_DENIED;
      }
    }
  }
}
