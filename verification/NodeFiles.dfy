/** pkg/webhook/controlplane/ensurer.go: files the webhook puts on a node, each path at most once. */
module NodeFiles {
  import opened Wrappers

  datatype File = File(path: string, permissions: nat, data: string)

  /** The files whose path is not in the set, in order. */
  function Keep(files: seq<File>, paths: set<string>): seq<File> {
    if files == [] then [] else
      var last := files[|files| - 1];
      Keep(files[..|files| - 1], paths) + if last.path in paths then [] else [last]
  }

  function AppendUnique(files: seq<File>, file: File): seq<File> {
    Keep(files, {file.path}) + [file]
  }

  function AppendAll(files: seq<File>, more: seq<File>): seq<File> {
    if more == [] then files else AppendUnique(AppendAll(files, more[..|more| - 1]), more[|more| - 1])
  }

  lemma AppendOneMore(files: seq<File>, done: seq<File>, file: File)
    ensures AppendAll(files, done + [file]) == AppendUnique(AppendAll(files, done), file)
    ensures [] + [file] == [file]
  {
    assert (done + [file])[..|done|] == done;
  }

  function Paths(files: seq<File>): set<string> {
    set f | f in files :: f.path
  }

  ghost predicate DistinctPaths(files: seq<File>) {
    forall i, j | 0 <= i < j < |files| :: files[i].path != files[j].path
  }

  /** Docker daemon options of the cloud profile; absent options read as none. */
  datatype DockerOptions = DockerOptions(httpProxyConf: Option<string>, insecureRegistries: seq<string>)

  function ProxyFile(conf: string): File {
    File("/etc/systemd/system/docker.service.d/http-proxy.conf", 0x1A4, conf)
  }

  function MergeFile(script: string): File {
    File("/opt/bin/merge-docker-json.sh", 0x1ED, script)
  }

  function PinFile(pin: string): File {
    File("/etc/apt/preferences.d/gardener-containerd-pin", 0x1A4, pin)
  }

  function DockerFiles(o: DockerOptions, render: seq<string> -> string): seq<File> {
    (if o.httpProxyConf.Some? then [ProxyFile(o.httpProxyConf.value)] else [])
    + (if o.insecureRegistries != [] then [MergeFile(render(o.insecureRegistries))] else [])
  }

  class FileList {
    var files: seq<File>

    constructor (initial: seq<File>)
      ensures files == initial
    {
      files := initial;
    }

    method AppendUniqueFile(file: File)
      modifies this
      ensures files == AppendUnique(old(files), file)
    {
      var resFiles: seq<File> := [];
      for i := 0 to |files|
        invariant files == old(files)
        invariant resFiles == Keep(files[..i], {file.path})
      {
        var f := files[i];
        assert files[..i + 1][..i] == files[..i];
        if f.path != file.path {
          resFiles := resFiles + [f];
        }
      }
      assert files[..|files|] == files;
      files := resFiles + [file];
    }

    /** The two files of the node's Docker daemon; nothing changes when the cloud profile cannot be read. */
    method EnsureAdditionalFiles(options: Decoded<DockerOptions>, render: seq<string> -> string) returns (ok: bool)
      modifies this
      ensures ok == options.Decoded?
      ensures files == if ok then AppendAll(old(files), DockerFiles(options.value, render)) else old(files)
    {
      if !options.Decoded? {
        return false;
      }
      var o := options.value;
      if o.httpProxyConf.Some? {
        AppendUniqueFile(ProxyFile(o.httpProxyConf.value));
        AppendOneMore(old(files), [], ProxyFile(o.httpProxyConf.value));
      }
      ghost var done := if o.httpProxyConf.Some? then [ProxyFile(o.httpProxyConf.value)] else [];
      assert files == AppendAll(old(files), done);
      if |o.insecureRegistries| != 0 {
        AppendUniqueFile(MergeFile(render(o.insecureRegistries)));
        AppendOneMore(old(files), done, MergeFile(render(o.insecureRegistries)));
      }
      return true;
    }

    method EnsureAdditionalProvisionFiles(pin: string)
      modifies this
      ensures files == AppendAll(old(files), [PinFile(pin)])
    {
      AppendUniqueFile(PinFile(pin));
      AppendOneMore(old(files), [], PinFile(pin));
    }
  }

  // ---------- what the lists look like ----------

  lemma {:induction false} KeepAppend(a: seq<File>, b: seq<File>, paths: set<string>)
    ensures Keep(a + b, paths) == Keep(a, paths) + Keep(b, paths)
  {
    if b == [] {
      assert a + b == a;
    } else {
      var n := |b| - 1;
      assert (a + b)[..|a + b| - 1] == a + b[..n];
      KeepAppend(a, b[..n], paths);
    }
  }

  lemma {:induction false} KeepTwice(files: seq<File>, p: set<string>, q: set<string>)
    ensures Keep(Keep(files, p), q) == Keep(files, p + q)
  {
    if files == [] {
    } else {
      var n := |files| - 1;
      KeepTwice(files[..n], p, q);
      KeepAppend(Keep(files[..n], p), if files[n].path in p then [] else [files[n]], q);
      assert Keep([files[n]], q) == if files[n].path in q then [] else [files[n]];
    }
  }

  lemma {:induction false} KeepAll(files: seq<File>, paths: set<string>)
    requires forall i | 0 <= i < |files| :: files[i].path !in paths
    ensures Keep(files, paths) == files
  {
    if files == [] {
    } else {
      var n := |files| - 1;
      KeepAll(files[..n], paths);
      assert files == files[..n] + [files[n]];
    }
  }

  lemma {:induction false} KeepNone(files: seq<File>, paths: set<string>)
    requires forall i | 0 <= i < |files| :: files[i].path in paths
    ensures Keep(files, paths) == []
  {
    if files == [] {
    } else {
      KeepNone(files[..|files| - 1], paths);
    }
  }

  lemma {:induction false} KeepMembers(files: seq<File>, paths: set<string>, f: File)
    ensures f in Keep(files, paths) <==> f in files && f.path !in paths
  {
    if files == [] {
    } else {
      var n := |files| - 1;
      KeepMembers(files[..n], paths, f);
      assert files == files[..n] + [files[n]];
    }
  }

  /** One append: the file is at the end, no other entry has its path, and all other entries keep content and order. */
  lemma AppendedOnce(files: seq<File>, file: File)
    ensures
      var r := AppendUnique(files, file);
      && r[|r| - 1] == file
      && (forall i | 0 <= i < |r| - 1 :: r[i].path != file.path)
      && Keep(r, {file.path}) == Keep(files, {file.path})
  {
    var r := AppendUnique(files, file);
    var front := Keep(files, {file.path});
    forall i | 0 <= i < |r| - 1 ensures r[i].path != file.path {
      KeepMembers(files, {file.path}, r[i]);
      assert r[i] == front[i];
    }
    KeepAppend(front, [file], {file.path});
    KeepTwice(files, {file.path}, {file.path});
    assert {file.path} + {file.path} == {file.path};
    KeepNone([file], {file.path});
  }

  lemma KeepPastFront(files: seq<File>, front: seq<File>, path: string)
    requires forall i | 0 <= i < |front| :: front[i].path != path
    ensures Keep(Keep(files, Paths(front)) + front, {path}) == Keep(files, Paths(front) + {path}) + front
  {
    KeepAppend(Keep(files, Paths(front)), front, {path});
    KeepTwice(files, Paths(front), {path});
    KeepAll(front, {path});
  }

  lemma SplitPaths(front: seq<File>, last: File)
    ensures Paths(front + [last]) == Paths(front) + {last.path}
  {
    var more := front + [last];
    assert forall f | f in more :: f in front || f == last;
    assert forall f | f in front :: f in more;
    assert last in more;
  }

  lemma AppendStep(files: seq<File>, front: seq<File>, last: File)
    requires AppendAll(files, front) == Keep(files, Paths(front)) + front
    requires forall i | 0 <= i < |front| :: front[i].path != last.path
    ensures AppendAll(files, front + [last]) == Keep(files, Paths(front + [last])) + (front + [last])
  {
    var kept := Keep(files, Paths(front) + {last.path});
    assert AppendAll(files, front + [last]) == (kept + front) + [last] by {
      AppendOneMore(files, front, last);
      KeepPastFront(files, front, last.path);
    }
    assert Keep(files, Paths(front + [last])) == kept by {
      SplitPaths(front, last);
    }
    assert (kept + front) + [last] == kept + (front + [last]);
  }

  /** Appending files of distinct paths: the earlier files of other paths, then the new files in their order. */
  lemma {:induction false} AppendAllMeaning(files: seq<File>, more: seq<File>)
    requires DistinctPaths(more)
    ensures AppendAll(files, more) == Keep(files, Paths(more)) + more
  {
    if more == [] {
      assert Paths(more) == {};
      KeepAll(files, {});
    } else {
      var n := |more| - 1;
      var front, last := more[..n], more[n];
      assert more == front + [last];
      AppendAllMeaning(files, front);
      AppendStep(files, front, last);
    }
  }

  /** Running a whole sequence of appends with distinct paths twice gives the list it gives once. */
  lemma AppendingTwice(files: seq<File>, more: seq<File>)
    requires DistinctPaths(more)
    ensures AppendAll(AppendAll(files, more), more) == AppendAll(files, more)
  {
    var paths := Paths(more);
    var kept := Keep(files, paths);
    AppendAllMeaning(files, more);
    AppendAllMeaning(kept + more, more);
    KeepAppend(kept, more, paths);
    KeepTwice(files, paths, paths);
    assert paths + paths == paths;
    forall i | 0 <= i < |more| ensures more[i].path in paths {
      assert more[i] in more;
    }
    KeepNone(more, paths);
    assert Keep(kept + more, paths) == kept;
  }

  /** So calling the webhook again with the same options leaves the node's files as they are. */
  lemma DockerFilesTwice(files: seq<File>, o: DockerOptions, render: seq<string> -> string)
    ensures
      AppendAll(AppendAll(files, DockerFiles(o, render)), DockerFiles(o, render))
      == AppendAll(files, DockerFiles(o, render))
  {
    AppendingTwice(files, DockerFiles(o, render));
  }

  // ---------- which files a node ends up with ----------

  /** The list has exactly this file under the path. */
  ghost predicate Holds(files: seq<File>, path: string, permissions: nat, data: string) {
    && (exists f | f in files :: f.path == path)
    && (forall f | f in files && f.path == path :: f.permissions == permissions && f.data == data)
  }

  lemma {:induction false} AppendAllMembers(files: seq<File>, more: seq<File>, f: File)
    requires DistinctPaths(more)
    ensures f in AppendAll(files, more) <==> f in more || (f in files && f.path !in Paths(more))
  {
    AppendAllMeaning(files, more);
    KeepMembers(files, Paths(more), f);
  }

  lemma HoldsAfter(files: seq<File>, more: seq<File>, file: File)
    requires DistinctPaths(more) && file in more
    ensures Holds(AppendAll(files, more), file.path, file.permissions, file.data)
  {
    AppendAllMembers(files, more, file);
    forall f | f in AppendAll(files, more) && f.path == file.path ensures f == file {
      AppendAllMembers(files, more, f);
    }
  }

  lemma DockerFilesMembers(o: DockerOptions, render: seq<string> -> string, f: File)
    ensures
      f in DockerFiles(o, render) <==>
        || (o.httpProxyConf.Some? && f == ProxyFile(o.httpProxyConf.value))
        || (o.insecureRegistries != [] && f == MergeFile(render(o.insecureRegistries)))
  {
    var a := if o.httpProxyConf.Some? then [ProxyFile(o.httpProxyConf.value)] else [];
    var b := if o.insecureRegistries != [] then [MergeFile(render(o.insecureRegistries))] else [];
    assert f in a + b <==> f in a || f in b;
  }

  /** The proxy configuration and the merge script are there when they are configured, with the permissions 0644 and
      0755. */
  lemma DockerFilesAreThere(files: seq<File>, o: DockerOptions, render: seq<string> -> string)
    ensures
      var r := AppendAll(files, DockerFiles(o, render));
      && (o.httpProxyConf.Some? ==>
            Holds(r, "/etc/systemd/system/docker.service.d/http-proxy.conf", 420, o.httpProxyConf.value))
      && (o.insecureRegistries != [] ==>
            Holds(r, "/opt/bin/merge-docker-json.sh", 493, render(o.insecureRegistries)))
  {
    if o.httpProxyConf.Some? {
      DockerFilesMembers(o, render, ProxyFile(o.httpProxyConf.value));
      HoldsAfter(files, DockerFiles(o, render), ProxyFile(o.httpProxyConf.value));
    }
    if o.insecureRegistries != [] {
      DockerFilesMembers(o, render, MergeFile(render(o.insecureRegistries)));
      HoldsAfter(files, DockerFiles(o, render), MergeFile(render(o.insecureRegistries)));
    }
  }

  /** Every file under another path is as before. */
  lemma OtherFilesStay(files: seq<File>, o: DockerOptions, render: seq<string> -> string, f: File)
    requires f.path == "/etc/systemd/system/docker.service.d/http-proxy.conf" ==> o.httpProxyConf.None?
    requires f.path == "/opt/bin/merge-docker-json.sh" ==> o.insecureRegistries == []
    ensures f in AppendAll(files, DockerFiles(o, render)) <==> f in files
  {
    var more := DockerFiles(o, render);
    AppendAllMembers(files, more, f);
    forall g ensures g in more ==> g.path != f.path {
      DockerFilesMembers(o, render, g);
    }
  }

  /** The pin file is on every node that is provisioned. */
  lemma PinFileIsThere(files: seq<File>, pin: string, f: File)
    ensures Holds(AppendAll(files, [PinFile(pin)]), "/etc/apt/preferences.d/gardener-containerd-pin", 420, pin)
    ensures f.path != "/etc/apt/preferences.d/gardener-containerd-pin" ==>
      (f in AppendAll(files, [PinFile(pin)]) <==> f in files)
  {
    assert PinFile(pin) in [PinFile(pin)];
    HoldsAfter(files, [PinFile(pin)], PinFile(pin));
    AppendAllMembers(files, [PinFile(pin)], f);
  }
}
