/**
 Whether remote paths exist (existence_check.cpp): the children of a directory asked for often enough are looked up
 in one listing of it, all others with one lstat each. The server is a set of answers; a path is a parent and a name.
 */
module ExistenceCheck {
  import opened Wrappers

  const LISTING_THRESHOLD := 10

  datatype RemotePath = Root | Child(directory: string, name: string)

  datatype LstatAnswer = Found | NoSuchFile | LstatFailed

  datatype ListAnswer = Listed(names: set<string>) | NoDirectory | PermissionDenied | ListFailed

  /** The answers of a server, how the client folds names, and which names the server takes for the same. */
  datatype Server = Server(
    lstat: (string, string) -> LstatAnswer, list: string -> ListAnswer,
    fold: string -> string, same: (string, string) -> bool)

  type Failure = string

  // ---------- one path ----------

  /** The answer of a single lstat: absent only when the server knows no such file. */
  function PathExists(server: Server, path: RemotePath): Result<bool, Failure>
    requires path.Child?
  {
    match server.lstat(path.directory, path.name)
    case Found => Success(true)
    case NoSuchFile => Success(false)
    case LstatFailed => Result<bool, Failure>.Failure("stat failed")
  }

  /** The names of a directory; None when it may not be listed, empty when it does not exist. */
  function ListNames(server: Server, directory: string): Result<Option<set<string>>, Failure> {
    match server.list(directory)
    case Listed(names) => Success(Some(names))
    case NoDirectory => Success(Some({}))
    case PermissionDenied => Success(None)
    case ListFailed => Result<Option<set<string>>, Failure>.Failure("listing failed")
  }

  predicate MayBeListed(server: Server, names: set<string>, name: string) {
    exists listed | listed in names :: server.fold(listed) == server.fold(name)
  }

  /** What the listing of its directory says of a path: present, absent, or ask with an lstat. */
  function ListedExists(server: Server, names: Option<set<string>>, path: RemotePath): Result<bool, Failure>
    requires path.Child?
  {
    match names
    case None => PathExists(server, path)
    case Some(listed) =>
      if path.name in listed then Success(true)
      else if !MayBeListed(server, listed, path.name) then Success(false)
      else PathExists(server, path)
  }

  // ---------- grouping ----------

  /** A directory and the indices of the paths asked for in it. */
  datatype Group = Group(directory: string, indices: seq<nat>)

  ghost predicate AllChildren(paths: seq<RemotePath>) {
    forall i | 0 <= i < |paths| :: paths[i].Child?
  }

  predicate IsIn(path: RemotePath, directory: string) {
    path.Child? && path.directory == directory
  }

  function CountIn(paths: seq<RemotePath>, directory: string): nat {
    if paths == [] then 0
    else CountIn(paths[..|paths| - 1], directory) + if IsIn(paths[|paths| - 1], directory) then 1 else 0
  }

  function GroupIndex(groups: seq<Group>, directory: string): (n: nat)
    ensures n <= |groups|
    ensures n < |groups| ==> groups[n].directory == directory
    ensures forall i | 0 <= i < n :: groups[i].directory != directory
  {
    if groups == [] || groups[0].directory == directory then 0 else 1 + GroupIndex(groups[1..], directory)
  }

  function AddIndex(groups: seq<Group>, directory: string, index: nat): seq<Group> {
    var g := GroupIndex(groups, directory);
    if g < |groups| then groups[g := Group(directory, groups[g].indices + [index])]
    else groups + [Group(directory, [index])]
  }

  /** The groups of the first n paths, in the order their directories first appear. */
  function Grouped(paths: seq<RemotePath>, n: nat): seq<Group>
    requires n <= |paths| && forall i | 0 <= i < n :: paths[i].Child?
  {
    if n == 0 then [] else AddIndex(Grouped(paths, n - 1), paths[n - 1].directory, n - 1)
  }

  /** The group holds, ascending and counted, exactly the indices below n of its directory. */
  ghost predicate GroupIs(group: Group, paths: seq<RemotePath>, n: nat)
    requires n <= |paths|
  {
    && (forall i :: i in group.indices <==> 0 <= i < n && IsIn(paths[i], group.directory))
    && (forall a, b | 0 <= a < b < |group.indices| :: group.indices[a] < group.indices[b])
    && |group.indices| == CountIn(paths[..n], group.directory)
  }

  lemma {:induction false} NoGroupNoPath(paths: seq<RemotePath>, n: nat, directory: string)
    requires n <= |paths| && forall i | 0 <= i < n :: !IsIn(paths[i], directory)
    ensures CountIn(paths[..n], directory) == 0
  {
    if n > 0 {
      assert paths[..n][..n - 1] == paths[..n - 1];
      NoGroupNoPath(paths, n - 1, directory);
    }
  }

  lemma ExtendedGroup(group: Group, paths: seq<RemotePath>, n: nat)
    requires n < |paths| && GroupIs(group, paths, n)
    ensures GroupIs(
              if IsIn(paths[n], group.directory) then group.(indices := group.indices + [n]) else group, paths, n + 1)
  {
    assert paths[..n + 1][..n] == paths[..n];
    if IsIn(paths[n], group.directory) {
      var extended := group.(indices := group.indices + [n]);
      forall i ensures i in extended.indices <==> 0 <= i < n + 1 && IsIn(paths[i], group.directory) {
        assert i in extended.indices <==> i in group.indices || i == n;
      }
      forall a, b | 0 <= a < b < |extended.indices| ensures extended.indices[a] < extended.indices[b] {
        assert group.indices[a] in group.indices;
      }
    }
  }

  /** Every directory asked for has one group, with exactly its indices; so every index is in exactly one. */
  lemma {:induction false} GroupsPartitionTheIndices(paths: seq<RemotePath>, n: nat)
    requires n <= |paths| && forall i | 0 <= i < n :: paths[i].Child?
    ensures var groups := Grouped(paths, n);
            && (forall g | 0 <= g < |groups| :: GroupIs(groups[g], paths, n))
            && (forall g, h | 0 <= g < h < |groups| :: groups[g].directory != groups[h].directory)
            && (forall i | 0 <= i < n :: GroupIndex(groups, paths[i].directory) < |groups|)
  {
    hide GroupIs, AddIndex, GroupIndex;
    if n > 0 {
      GroupsPartitionTheIndices(paths, n - 1);
      AddingKeepsThePartition(Grouped(paths, n - 1), paths, n - 1);
    }
  }

  lemma FoundAmong(groups: seq<Group>, directory: string, g: nat)
    requires g < |groups| && groups[g].directory == directory
    ensures GroupIndex(groups, directory) < |groups|
  {
  }

  lemma AddingKeepsThePartition(groups: seq<Group>, paths: seq<RemotePath>, n: nat)
    requires n < |paths| && paths[n].Child?
    requires forall g | 0 <= g < |groups| :: GroupIs(groups[g], paths, n)
    requires forall g, h | 0 <= g < h < |groups| :: groups[g].directory != groups[h].directory
    requires forall i | 0 <= i < n :: paths[i].Child? && GroupIndex(groups, paths[i].directory) < |groups|
    ensures var after := AddIndex(groups, paths[n].directory, n);
            && (forall g | 0 <= g < |after| :: GroupIs(after[g], paths, n + 1))
            && (forall g, h | 0 <= g < h < |after| :: after[g].directory != after[h].directory)
            && (forall i | 0 <= i <= n :: GroupIndex(after, paths[i].directory) < |after|)
  {
    hide GroupIs;
    var directory := paths[n].directory;
    var at := GroupIndex(groups, directory);
    var after := AddIndex(groups, directory, n);
    forall g | 0 <= g < |after| ensures GroupIs(after[g], paths, n + 1) {
      if g < |groups| {
        ExtendedGroup(groups[g], paths, n);
        assert g != at ==> groups[g].directory != directory;
      } else {
        NewGroup(paths, n);
      }
    }
    forall i | 0 <= i <= n ensures GroupIndex(after, paths[i].directory) < |after| {
      FoundAmong(after, paths[i].directory, if i == n then at else GroupIndex(groups, paths[i].directory));
    }
  }

  lemma NewGroup(paths: seq<RemotePath>, n: nat)
    requires n < |paths| && paths[n].Child?
    requires forall i | 0 <= i < n :: !IsIn(paths[i], paths[n].directory)
    ensures GroupIs(Group(paths[n].directory, [n]), paths, n + 1)
  {
    var directory := paths[n].directory;
    NoGroupNoPath(paths, n, directory);
    assert paths[..n + 1][..n] == paths[..n];
  }

  lemma EveryIndexIsInOneGroup(paths: seq<RemotePath>, i: nat)
    requires AllChildren(paths) && i < |paths|
    ensures var groups := Grouped(paths, |paths|);
            forall g | 0 <= g < |groups| :: i in groups[g].indices <==> g == GroupIndex(groups, paths[i].directory)
    ensures GroupIndex(Grouped(paths, |paths|), paths[i].directory) < |Grouped(paths, |paths|)|
  {
    GroupsPartitionTheIndices(paths, |paths|);
    hide Grouped, GroupIndex;
  }

  /** The map knows where the group of every directory is. */
  ghost predicate KnowsGroups(parentIndex: map<string, nat>, groups: seq<Group>) {
    forall directory ::
      GroupIndex(groups, directory) == if directory in parentIndex then parentIndex[directory] else |groups|
  }

  lemma GroupIndexIs(groups: seq<Group>, directory: string, n: nat)
    requires n <= |groups| && (n < |groups| ==> groups[n].directory == directory)
    requires forall i | 0 <= i < n :: groups[i].directory != directory
    ensures GroupIndex(groups, directory) == n
  {
  }

  lemma LearnsGroup(parentIndex: map<string, nat>, groups: seq<Group>, directory: string, index: nat)
    requires KnowsGroups(parentIndex, groups)
    requires forall d | d in parentIndex :: parentIndex[d] < |groups|
    ensures KnowsGroups(if directory in parentIndex then parentIndex else parentIndex[directory := |groups|],
                        AddIndex(groups, directory, index))
  {
    var after := AddIndex(groups, directory, index);
    var learned := if directory in parentIndex then parentIndex else parentIndex[directory := |groups|];
    forall other ensures GroupIndex(after, other) == if other in learned then learned[other] else |after| {
      var n := if other in learned then learned[other] else |after|;
      assert forall i | 0 <= i < |groups| :: after[i].directory == groups[i].directory;
      GroupIndexIs(after, other, n);
    }
  }

  /** Groups the paths by directory through an index map; None when a path has no parent. */
  method GroupByParent(paths: seq<RemotePath>) returns (groups: Option<seq<Group>>)
    ensures groups.Some? <==> AllChildren(paths)
    ensures groups.Some? ==> groups.value == Grouped(paths, |paths|)
  {
    hide KnowsGroups, GroupIndex;
    var byParent: seq<Group> := [];
    var parentIndex: map<string, nat> := map[];
    assert KnowsGroups(map[], []) by { NoGroups(); }
    for index := 0 to |paths|
      invariant forall i | 0 <= i < index :: paths[i].Child?
      invariant byParent == Grouped(paths, index)
      invariant KnowsGroups(parentIndex, byParent) && forall d | d in parentIndex :: parentIndex[d] < |byParent|
    {
      if paths[index].Root? {
        return None;
      }
      var directory := paths[index].directory;
      LearnsGroup(parentIndex, byParent, directory, index);
      KnownIndex(parentIndex, byParent, directory);
      ghost var before := byParent;
      assert [] + [index] == [index];
      if directory !in parentIndex {
        parentIndex := parentIndex[directory := |byParent|];
        byParent := byParent + [Group(directory, [])];
      }
      var found := parentIndex[directory];
      byParent := byParent[found := Group(directory, byParent[found].indices + [index])];
      assert byParent == AddIndex(before, directory, index);
    }
    groups := Some(byParent);
  }

  lemma NoGroups()
    ensures KnowsGroups(map[], [])
  {
  }

  lemma KnownIndex(parentIndex: map<string, nat>, groups: seq<Group>, directory: string)
    requires KnowsGroups(parentIndex, groups)
    ensures GroupIndex(groups, directory) == if directory in parentIndex then parentIndex[directory] else |groups|
  {
  }

  // ---------- the check ----------

  /** What the grouped check answers for one path, from its directory's count alone. */
  function Asked(server: Server, paths: seq<RemotePath>, path: RemotePath): Result<bool, Failure>
    requires path.Child?
  {
    if CountIn(paths, path.directory) >= LISTING_THRESHOLD then
      match ListNames(server, path.directory)
      case Failure(error) => Result<bool, Failure>.Failure(error)
      case Success(names) => ListedExists(server, names, path)
    else PathExists(server, path)
  }

  lemma IndicesAreInRange(group: Group, paths: seq<RemotePath>)
    requires GroupIs(group, paths, |paths|)
    ensures forall k | 0 <= k < |group.indices| ::
              group.indices[k] < |paths| && IsIn(paths[group.indices[k]], group.directory)
    ensures |group.indices| == CountIn(paths, group.directory)
  {
    assert forall k | 0 <= k < |group.indices| :: group.indices[k] in group.indices;
    assert paths[..|paths|] == paths;
  }

  /** Answers the paths of one group from one listing of its directory. */
  method CheckByListing(server: Server, paths: seq<RemotePath>, group: Group, results: array<bool>)
    returns (failed: Option<Failure>)
    requires results.Length == |paths| && GroupIs(group, paths, |paths|) && |group.indices| >= LISTING_THRESHOLD
    modifies results
    ensures forall i | 0 <= i < |paths| && i !in group.indices :: results[i] == old(results[i])
    ensures failed.None? ==> forall i | i in group.indices :: Asked(server, paths, paths[i]) == Success(results[i])
    ensures failed.Some? ==> exists i | i in group.indices :: Asked(server, paths, paths[i]).Failure?
  {
    hide CountIn;
    IndicesAreInRange(group, paths);
    var names := ListNames(server, group.directory);
    if names.Failure? {
      assert group.indices[0] in group.indices;
      return Some(names.error);
    }
    for k := 0 to |group.indices|
      invariant forall i | 0 <= i < |paths| && i !in group.indices :: results[i] == old(results[i])
      invariant forall a | 0 <= a < k ::
          Asked(server, paths, paths[group.indices[a]]) == Success(results[group.indices[a]])
    {
      var index := group.indices[k];
      assert index in group.indices;
      var answer := ListedExists(server, names.value, paths[index]);
      if answer.Failure? {
        return Some(answer.error);
      }
      results[index] := answer.value;
    }
    failed := None;
  }

  /** Answers the paths of one group with an lstat each. */
  method CheckOneByOne(server: Server, paths: seq<RemotePath>, group: Group, results: array<bool>)
    returns (failed: Option<Failure>)
    requires results.Length == |paths| && GroupIs(group, paths, |paths|) && |group.indices| < LISTING_THRESHOLD
    modifies results
    ensures forall i | 0 <= i < |paths| && i !in group.indices :: results[i] == old(results[i])
    ensures failed.None? ==> forall i | i in group.indices :: Asked(server, paths, paths[i]) == Success(results[i])
    ensures failed.Some? ==> exists i | i in group.indices :: Asked(server, paths, paths[i]).Failure?
  {
    hide CountIn;
    IndicesAreInRange(group, paths);
    for k := 0 to |group.indices|
      invariant forall i | 0 <= i < |paths| && i !in group.indices :: results[i] == old(results[i])
      invariant forall a | 0 <= a < k ::
          Asked(server, paths, paths[group.indices[a]]) == Success(results[group.indices[a]])
    {
      var index := group.indices[k];
      assert index in group.indices;
      var answer := PathExists(server, paths[index]);
      if answer.Failure? {
        return Some(answer.error);
      }
      results[index] := answer.value;
    }
    failed := None;
  }

  lemma GroupsAreApart(paths: seq<RemotePath>, g: nat, h: nat)
    requires AllChildren(paths) && g < h < |Grouped(paths, |paths|)|
    ensures forall i | i in Grouped(paths, |paths|)[g].indices :: i !in Grouped(paths, |paths|)[h].indices
    ensures forall i | i in Grouped(paths, |paths|)[g].indices :: i < |paths|
  {
    GroupsPartitionTheIndices(paths, |paths|);
    hide Grouped;
    assert GroupIs(Grouped(paths, |paths|)[g], paths, |paths|) && GroupIs(Grouped(paths, |paths|)[h], paths, |paths|);
  }

  /** How many of the paths are in a directory. */
  lemma {:induction false} CountInCounts(paths: seq<RemotePath>, directory: string)
    ensures CountIn(paths, directory)
            == |set i | 0 <= i < |paths| && paths[i].Child? && paths[i].directory == directory|
  {
    var all := set i | 0 <= i < |paths| && paths[i].Child? && paths[i].directory == directory;
    if paths == [] {
      assert all == {};
    } else {
      var n := |paths| - 1;
      CountInCounts(paths[..n], directory);
      var front := set i | 0 <= i < n && paths[..n][i].Child? && paths[..n][i].directory == directory;
      assert all == front + if IsIn(paths[n], directory) then {n} else {};
    }
  }

  /**
   What is answered about a path: by its lstat while fewer than ten paths are asked for in its directory, or when that
   may not be listed; otherwise by the listing, and by its lstat when a name listed only folds to the same.
   */
  lemma AnswersMean(server: Server, paths: seq<RemotePath>, directory: string, name: string)
    ensures var beside := set i | 0 <= i < |paths| && paths[i].Child? && paths[i].directory == directory;
            var listing, lstat := server.list(directory), server.lstat(directory, name);
            var folds := listing.Listed? && exists listed | listed in listing.names ::
                server.fold(listed) == server.fold(name);
            var answer := Asked(server, paths, Child(directory, name));
            var asks := |beside| < 10 || listing.PermissionDenied?
                        || (listing.Listed? && name !in listing.names && folds);
            && (answer == Success(true) <==>
                  if asks then lstat.Found? else listing.Listed? && name in listing.names)
            && (answer == Success(false) <==>
                  if asks then lstat.NoSuchFile?
                  else listing.NoDirectory? || (listing.Listed? && name !in listing.names))
            && (answer.Failure? <==> if asks then lstat.LstatFailed? else listing.ListFailed?)
  {
    CountInCounts(paths, directory);
    hide CountIn;
  }

  /**
   Answers every path, or fails: when a path has no parent, or when an answer one of them needs fails.
   */
  method RemotePathsExist(server: Server, paths: seq<RemotePath>) returns (r: Result<seq<bool>, Failure>)
    ensures r.Success? <==> AllChildren(paths) && forall i | 0 <= i < |paths| :: Asked(server, paths, paths[i]).Success?
    ensures r.Success? ==> |r.value| == |paths|
    ensures r.Success? ==> forall i | 0 <= i < |paths| :: Asked(server, paths, paths[i]) == Success(r.value[i])
  {
    hide Grouped, Asked, GroupIs;
    var groups := GroupByParent(paths);
    if groups.None? {
      return Result<seq<bool>, Failure>.Failure("a path has no parent directory");
    }
    var byParent := groups.value;
    GroupsPartitionTheIndices(paths, |paths|);
    IndicesAreValid(paths);
    var results := new bool[|paths|](i => false);
    for g := 0 to |byParent|
      invariant forall h, i | 0 <= h < g && i in byParent[h].indices ::
          Asked(server, paths, paths[i]) == Success(results[i])
    {
      forall h | 0 <= h < g ensures forall i | i in byParent[h].indices :: i !in byParent[g].indices {
        GroupsAreApart(paths, h, g);
      }
      var failed;
      if |byParent[g].indices| >= LISTING_THRESHOLD {
        failed := CheckByListing(server, paths, byParent[g], results);
      } else {
        failed := CheckOneByOne(server, paths, byParent[g], results);
      }
      if failed.Some? {
        return Result<seq<bool>, Failure>.Failure(failed.value);
      }
    }
    forall i | 0 <= i < |paths| ensures Asked(server, paths, paths[i]) == Success(results[i]) {
      EveryIndexIsInOneGroup(paths, i);
    }
    r := Success(results[..]);
  }

  lemma IndicesAreValid(paths: seq<RemotePath>)
    requires AllChildren(paths)
    ensures forall g, i | 0 <= g < |Grouped(paths, |paths|)| && i in Grouped(paths, |paths|)[g].indices :: i < |paths|
  {
    GroupsPartitionTheIndices(paths, |paths|);
    hide Grouped;
    forall g, i | 0 <= g < |Grouped(paths, |paths|)| && i in Grouped(paths, |paths|)[g].indices ensures i < |paths| {
      assert GroupIs(Grouped(paths, |paths|)[g], paths, |paths|);
    }
  }

  // ---------- the fast path against one lstat per path ----------

  /** A server that answers about one state of its directories. */
  ghost predicate Consistent(server: Server) {
    && (forall name :: server.same(name, name))
    && (forall directory, name ::
          match server.list(directory)
          case Listed(names) =>
            && (server.lstat(directory, name) == Found ==> exists listed | listed in names :: server.same(listed, name))
            && (server.lstat(directory, name) == NoSuchFile ==>
               forall listed | listed in names :: !server.same(listed, name))
          case NoDirectory => server.lstat(directory, name) != Found
          case _ => true)
  }

  /** Names are only the same to the server when their folds are equal. */
  ghost predicate FoldsCover(fold: string -> string, same: (string, string) -> bool) {
    forall a, b | same(a, b) :: fold(a) == fold(b)
  }

  /** Whenever the grouped check and a plain lstat both answer about a path, they answer the same. */
  lemma ListingAgreesWithLstat(server: Server, paths: seq<RemotePath>, path: RemotePath)
    requires Consistent(server) && FoldsCover(server.fold, server.same) && path.Child?
    requires Asked(server, paths, path).Success? && PathExists(server, path).Success?
    ensures Asked(server, paths, path) == PathExists(server, path)
  {
    var answer := server.lstat(path.directory, path.name);
    if CountIn(paths, path.directory) >= LISTING_THRESHOLD && server.list(path.directory).Listed? {
      var names := server.list(path.directory).names;
      if path.name in names {
        assert server.same(path.name, path.name);
      } else {
        forall listed | listed in names && server.same(listed, path.name)
          ensures MayBeListed(server, names, path.name)
        {
          assert server.fold(listed) == server.fold(path.name);
        }
        assert answer == Found ==> exists listed | listed in names :: server.same(listed, path.name);
      }
    }
  }

  /** The same for whole vectors: both checks give every path the same answer in the same place. */
  lemma VectorsAgree(server: Server, paths: seq<RemotePath>, grouped: seq<bool>, plain: seq<bool>)
    requires Consistent(server) && FoldsCover(server.fold, server.same) && AllChildren(paths)
    requires |grouped| == |plain| == |paths|
    requires forall i | 0 <= i < |paths| :: Asked(server, paths, paths[i]) == Success(grouped[i])
    requires forall i | 0 <= i < |paths| :: PathExists(server, paths[i]) == Success(plain[i])
    ensures grouped == plain
  {
    forall i | 0 <= i < |paths| ensures grouped[i] == plain[i] {
      ListingAgreesWithLstat(server, paths, paths[i]);
    }
  }

  ghost predicate AlwaysAgrees(fold: string -> string, same: (string, string) -> bool) {
    forall server: Server, paths: seq<RemotePath>, path: RemotePath |
      && server.fold == fold && server.same == same && Consistent(server) && path.Child?
      && Asked(server, paths, path).Success? && PathExists(server, path).Success? ::
      Asked(server, paths, path) == PathExists(server, path)
  }

  lemma {:induction false} Repeats(path: RemotePath, n: nat)
    requires path.Child?
    ensures CountIn(seq(n, _ => path), path.directory) == n
  {
    if n > 0 {
      Repeats(path, n - 1);
      assert seq(n, _ => path)[..n - 1] == seq(n - 1, _ => path);
    }
  }

  /** A server that lists only a and takes b for it. */
  function Counterexample(fold: string -> string, same: (string, string) -> bool, a: string): Server {
    Server((directory, name) => if same(a, name) then Found else NoSuchFile, directory => Listed({a}), fold, same)
  }

  /**
   The fast path is right for every consistent server and every list of paths exactly when the server only takes
   names for the same whose folds are equal.
   */
  lemma FastPathIsRightIffFoldsCover(fold: string -> string, same: (string, string) -> bool)
    requires forall name :: same(name, name)
    ensures AlwaysAgrees(fold, same) <==> FoldsCover(fold, same)
  {
    if FoldsCover(fold, same) {
      forall server: Server, paths: seq<RemotePath>, path: RemotePath |
        && server.fold == fold && server.same == same && Consistent(server) && path.Child?
        && Asked(server, paths, path).Success? && PathExists(server, path).Success?
        ensures Asked(server, paths, path) == PathExists(server, path)
      {
        ListingAgreesWithLstat(server, paths, path);
      }
    } else {
      var a, b :| same(a, b) && fold(a) != fold(b);
      WrongAnswer(fold, same, a, b);
    }
  }

  lemma WrongAnswer(fold: string -> string, same: (string, string) -> bool, a: string, b: string)
    requires (forall name :: same(name, name)) && same(a, b) && fold(a) != fold(b)
    ensures !AlwaysAgrees(fold, same)
  {
    var server := Counterexample(fold, same, a);
    var path := Child("", b);
    var paths := seq(LISTING_THRESHOLD, _ => path);
    Repeats(path, LISTING_THRESHOLD);
    assert Consistent(server);
    assert Asked(server, paths, path) == Success(false);
    assert PathExists(server, path) == Success(true);
  }
}
