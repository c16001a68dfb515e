/**
 A user's space as WebDAV shows it to the executor: files by path, where neither MOVE nor COPY
 replaces an existing destination (sections 9.8, 9.9 and 10.6 of RFC 4918), and the sidecar
 files that comments are kept in.
 */
module FileSpace {
  import opened Wrappers
  import opened Text

  /** `id` stays with a file wherever it is moved. */
  datatype File = File(id: nat, content: string, tags: set<string>)

  /** Paths carry no slash at either end; "" is the root folder. */
  datatype Space = Space(files: map<string, File>, nextID: nat)

  predicate ValidSpace(s: Space) {
    && "" !in s.files
    && (forall p :: p in s.files ==> s.files[p].id < s.nextID)
    && (forall p, q :: p in s.files && q in s.files && s.files[p].id == s.files[q].id ==> p == q)
  }

  // ---- what the server does, if it does anything ---------------------------------------------------

  function Moved(s: Space, src: string, dst: string): Option<Space> {
    var src, dst := TrimSlashes(src), TrimSlashes(dst);
    if src !in s.files || dst in s.files || dst == "" then None
    else Some(s.(files := (s.files - {src})[dst := s.files[src]]))
  }

  function Copied(s: Space, src: string, dst: string): Option<Space> {
    var src, dst := TrimSlashes(src), TrimSlashes(dst);
    if src !in s.files || dst in s.files || dst == "" then None
    else Some(Space(s.files[dst := File(s.nextID, s.files[src].content, {})], s.nextID + 1))
  }

  function Tagged(s: Space, path: string, tag: string): Option<Space> {
    var path := TrimSlashes(path);
    if path !in s.files then None
    else Some(s.(files := s.files[path := s.files[path].(tags := s.files[path].tags + {tag})]))
  }

  /** PUT creates a file or replaces the content of the one there. */
  function Written(s: Space, path: string, content: string): Option<Space> {
    if path in s.files then Some(s.(files := s.files[path := s.files[path].(content := content)]))
    else Some(Space(s.files[path := File(s.nextID, content, {})], s.nextID + 1))
  }

  // ---- comments --------------------------------------------------------------------------------------

  const COMMENTS_DIR := ".workflows/comments/"

  /** The URL alphabet: capitals, small letters, digits, '-' and '_'. */
  function Digit(n: nat): char {
    var d := n % 64;
    if d < 26 then ('A' as int + d) as char
    else if d < 52 then ('a' as int + d - 26) as char
    else if d < 62 then ('0' as int + d - 52) as char
    else if d == 62 then '-' else '_'
  }

  /** Unpadded base64 with the URL alphabet (section 5 of RFC 4648) of a string of bytes: six bits a digit. */
  function Base64(bytes: string): (r: string)
    ensures |r| == (4 * |bytes| + 2) / 3 && |bytes| <= |r|
  {
    seq((4 * |bytes| + 2) / 3, (k: nat) => Digit(SixBits(bytes, k / 4, k % 4)))
  }

  function ByteAt(bytes: string, i: nat): nat {
    if i < |bytes| then bytes[i] as nat else 0
  }

  /** The j-th six bits of the q-th group of three bytes; zeros fill up what is missing at the end. */
  function SixBits(bytes: string, q: nat, j: nat): nat {
    var a, b, c := ByteAt(bytes, 3 * q), ByteAt(bytes, 3 * q + 1), ByteAt(bytes, 3 * q + 2);
    if j == 0 then a / 4
    else if j == 1 then a % 4 * 16 + b / 16
    else if j == 2 then b % 16 * 4 + c / 64
    else c % 64
  }

  function DigitValue(c: char): (n: nat)
    ensures n < 64
  {
    if 'A' <= c <= 'Z' then c as int - 'A' as int
    else if 'a' <= c <= 'z' then c as int - 'a' as int + 26
    else if '0' <= c <= '9' then c as int - '0' as int + 52
    else if c == '-' then 62 else 63
  }

  function FromBase64(s: string): string {
    seq(|s| * 3 / 4, (i: nat) => EightBits(s, i / 3, i % 3) as char)
  }

  function ValueAt(s: string, k: nat): (n: nat)
    ensures n < 64
  {
    if k < |s| then DigitValue(s[k]) else 0
  }

  /** The m-th byte of the q-th group of four digits. */
  function EightBits(s: string, q: nat, m: nat): (n: nat)
    ensures n < 256
  {
    var d, e, f, g := ValueAt(s, 4 * q), ValueAt(s, 4 * q + 1), ValueAt(s, 4 * q + 2), ValueAt(s, 4 * q + 3);
    if m == 0 then d * 4 + e / 16
    else if m == 1 then e % 16 * 16 + f / 4
    else f % 4 * 64 + g
  }

  /** A string as Go has it: every character is one byte. */
  predicate AreBytes(s: string) {
    forall k :: 0 <= k < |s| ==> s[k] as int < 256
  }

  lemma DigitHasItsValue(n: nat)
    requires n < 64
    ensures DigitValue(Digit(n)) == n
  {
  }

  lemma InGroup(q: nat, j: nat, n: pos)
    requires j < n
    ensures (n * q + j) / n == q && (n * q + j) % n == j
  {
    var d := (n * q + j) / n;
    if d < q { Multiples(n, d + 1, q); }
    if q < d { Multiples(n, q + 1, d); }
  }

  lemma Multiples(n: pos, x: nat, y: nat)
    requires x <= y
    ensures n * x <= n * y
  {
  }

  /** Reading a digit that was written gives its six bits. */
  lemma ReadsSixBits(bytes: string, q: nat, j: nat)
    requires AreBytes(bytes) && j < 4 && 4 * q + j < (4 * |bytes| + 2) / 3
    ensures ValueAt(Base64(bytes), 4 * q + j) == SixBits(bytes, q, j)
  {
    InGroup(q, j, 4);
    SixBitsAreFew(bytes, q, j);
    DigitHasItsValue(SixBits(bytes, q, j));
  }

  lemma SixBitsAreFew(bytes: string, q: nat, j: nat)
    requires AreBytes(bytes)
    ensures SixBits(bytes, q, j) < 64
  {
  }

  /** Eight bits out of two digits, three times. */
  lemma FirstByte(a: nat, b: nat, d: nat, e: nat)
    requires a < 256 && b < 256 && d == a / 4 && e == a % 4 * 16 + b / 16
    ensures d * 4 + e / 16 == a
  {
  }

  lemma SecondByte(a: nat, b: nat, c: nat, e: nat, f: nat)
    requires a < 256 && b < 256 && c < 256 && e == a % 4 * 16 + b / 16 && f == b % 16 * 4 + c / 64
    ensures e % 16 * 16 + f / 4 == b
  {
    assert e % 16 == b / 16 && f / 4 == b % 16;
  }

  lemma ThirdByte(b: nat, c: nat, f: nat, g: nat)
    requires b < 256 && c < 256 && f == b % 16 * 4 + c / 64 && g == c % 64
    ensures f % 4 * 64 + g == c
  {
  }

  lemma BytesAreSmall(bytes: string, i: nat)
    requires AreBytes(bytes)
    ensures ByteAt(bytes, i) < 256
  {
  }

  lemma CombinesFirst(s: string, bytes: string, q: nat)
    requires AreBytes(bytes)
    requires ValueAt(s, 4 * q) == SixBits(bytes, q, 0) && ValueAt(s, 4 * q + 1) == SixBits(bytes, q, 1)
    ensures EightBits(s, q, 0) == ByteAt(bytes, 3 * q)
  {
    BytesAreSmall(bytes, 3 * q);
    BytesAreSmall(bytes, 3 * q + 1);
    FirstByte(ByteAt(bytes, 3 * q), ByteAt(bytes, 3 * q + 1), ValueAt(s, 4 * q), ValueAt(s, 4 * q + 1));
  }

  lemma CombinesSecond(s: string, bytes: string, q: nat)
    requires AreBytes(bytes)
    requires ValueAt(s, 4 * q + 1) == SixBits(bytes, q, 1) && ValueAt(s, 4 * q + 2) == SixBits(bytes, q, 2)
    ensures EightBits(s, q, 1) == ByteAt(bytes, 3 * q + 1)
  {
    BytesAreSmall(bytes, 3 * q);
    BytesAreSmall(bytes, 3 * q + 1);
    BytesAreSmall(bytes, 3 * q + 2);
    SecondByte(ByteAt(bytes, 3 * q), ByteAt(bytes, 3 * q + 1), ByteAt(bytes, 3 * q + 2),
               ValueAt(s, 4 * q + 1), ValueAt(s, 4 * q + 2));
  }

  lemma CombinesThird(s: string, bytes: string, q: nat)
    requires AreBytes(bytes)
    requires ValueAt(s, 4 * q + 2) == SixBits(bytes, q, 2) && ValueAt(s, 4 * q + 3) == SixBits(bytes, q, 3)
    ensures EightBits(s, q, 2) == ByteAt(bytes, 3 * q + 2)
  {
    BytesAreSmall(bytes, 3 * q + 1);
    BytesAreSmall(bytes, 3 * q + 2);
    ThirdByte(ByteAt(bytes, 3 * q + 1), ByteAt(bytes, 3 * q + 2), ValueAt(s, 4 * q + 2), ValueAt(s, 4 * q + 3));
  }

  lemma ReadsFirst(bytes: string, q: nat)
    requires AreBytes(bytes) && 3 * q < |bytes|
    ensures EightBits(Base64(bytes), q, 0) == ByteAt(bytes, 3 * q)
  {
    ReadsSixBits(bytes, q, 0);
    ReadsSixBits(bytes, q, 1);
    CombinesFirst(Base64(bytes), bytes, q);
  }

  lemma ReadsSecond(bytes: string, q: nat)
    requires AreBytes(bytes) && 3 * q + 1 < |bytes|
    ensures EightBits(Base64(bytes), q, 1) == ByteAt(bytes, 3 * q + 1)
  {
    ReadsSixBits(bytes, q, 1);
    ReadsSixBits(bytes, q, 2);
    CombinesSecond(Base64(bytes), bytes, q);
  }

  lemma ReadsThird(bytes: string, q: nat)
    requires AreBytes(bytes) && 3 * q + 2 < |bytes|
    ensures EightBits(Base64(bytes), q, 2) == ByteAt(bytes, 3 * q + 2)
  {
    ReadsSixBits(bytes, q, 2);
    ReadsSixBits(bytes, q, 3);
    CombinesThird(Base64(bytes), bytes, q);
  }

  /** Base64 can be read back. */
  lemma Base64Decodes(bytes: string)
    requires AreBytes(bytes)
    ensures FromBase64(Base64(bytes)) == bytes
  {
    var r := FromBase64(Base64(bytes));
    assert |r| == |bytes|;
    forall i: nat | i < |bytes| ensures r[i] == bytes[i] {
      ReadsByte(bytes, i);
    }
  }

  lemma ReadsByte(bytes: string, i: nat)
    requires AreBytes(bytes) && i < |bytes|
    ensures EightBits(Base64(bytes), i / 3, i % 3) == bytes[i] as nat
  {
    var q, m := i / 3, i % 3;
    assert 3 * q + m == i;
    if m == 0 {
      ReadsFirst(bytes, q);
    } else if m == 1 {
      ReadsSecond(bytes, q);
    } else {
      ReadsThird(bytes, q);
    }
  }

  /** Comments on different paths are kept in different files. */
  lemma SidecarsDiffer(p: string, q: string)
    requires AreBytes(p) && AreBytes(q) && p != q
    ensures SidecarPath(p) != SidecarPath(q)
  {
    Base64Decodes(p);
    Base64Decodes(q);
    SidecarEncodes(p);
    SidecarEncodes(q);
  }

  lemma SidecarEncodes(p: string)
    ensures var s := SidecarPath(p);
      |s| >= |COMMENTS_DIR| + 5 && s[|COMMENTS_DIR|..|s| - 5] == Base64(p)
  {
  }

  lemma Base64HasNoSlash(bytes: string)
    ensures '/' !in Base64(bytes)
  {
  }

  function SidecarPath(davPath: string): string {
    COMMENTS_DIR + Base64(davPath) + ".json"
  }

  predicate IsSidecar(path: string) {
    HasPrefix(path, COMMENTS_DIR)
  }

  lemma {:induction false} TrimmedIsShorter(s: string)
    ensures |TrimLeftSlashes(s)| <= |s| && |TrimRightSlashes(s)| <= |s|
  {
    if s != "" {
      TrimmedIsShorter(s[1..]);
      TrimmedIsShorter(s[..|s| - 1]);
    }
  }

  /** No file is its own sidecar. */
  lemma SidecarIsElsewhere(davPath: string)
    ensures SidecarPath(davPath) != TrimSlashes(davPath) && IsSidecar(SidecarPath(davPath))
      && SidecarPath(davPath) != ""
  {
    TrimmedIsShorter(davPath);
    TrimmedIsShorter(TrimLeftSlashes(davPath));
    assert SidecarPath(davPath)[..|COMMENTS_DIR|] == COMMENTS_DIR;
  }

  // ---- answers ---------------------------------------------------------------------------------------

  /** How a call ends: carried out and confirmed, refused, or carried out although the caller is told it failed. */
  datatype Outcome = Confirmed | Refused | Lost

  /** The server's state after a call that would lead to `change`, and whether the caller sees success. */
  function Answered(s: Space, change: Option<Space>, outcome: Outcome): (Space, bool) {
    if change.None? || outcome.Refused? then (s, false) else (change.value, outcome.Confirmed?)
  }

  /** The last element of a path, and what comes before it. */
  function LastSlash(s: string): (i: int)
    ensures -1 <= i < |s|
    ensures i >= 0 ==> s[i] == '/'
    ensures forall k :: i < k < |s| ==> s[k] != '/'
  {
    if s == "" then -1 else if s[|s| - 1] == '/' then |s| - 1 else LastSlash(s[..|s| - 1])
  }

  function LastElement(s: string): string {
    if s == "" || s[|s| - 1] == '/' then "" else LastElement(s[..|s| - 1]) + [s[|s| - 1]]
  }

  lemma {:induction false} LastElementFollowsSlash(s: string)
    ensures LastElement(s) == s[LastSlash(s) + 1..]
  {
    if s != "" && s[|s| - 1] != '/' {
      var most := s[..|s| - 1];
      LastElementFollowsSlash(most);
      assert s == most + [s[|s| - 1]];
    }
  }

  function BaseName(davPath: string): string {
    LastElement(TrimSlashes(davPath))
  }

  function DirName(davPath: string): string {
    var trimmed := TrimSlashes(davPath);
    if LastSlash(trimmed) < 0 then "" else trimmed[..LastSlash(trimmed)]
  }

  /** The two parts make up the trimmed path, and the last element holds no slash. */
  lemma PathParts(davPath: string)
    ensures '/' !in BaseName(davPath)
    ensures TrimSlashes(davPath) == BaseName(davPath)
      || TrimSlashes(davPath) == DirName(davPath) + "/" + BaseName(davPath)
    ensures '/' in TrimSlashes(davPath) ==> TrimSlashes(davPath) == DirName(davPath) + "/" + BaseName(davPath)
  {
    var t := TrimSlashes(davPath);
    var i := LastSlash(t);
    LastElementFollowsSlash(t);
    assert i >= 0 ==> t == t[..i] + [t[i]] + t[i + 1..];
  }

  // ---- paths put together --------------------------------------------------------------------------------

  predicate IsName(name: string) {
    name != "" && '/' !in name
  }

  lemma {:induction false} LastSlashOfJoin(folder: string, name: string)
    requires '/' !in name
    ensures LastSlash(folder + "/" + name) == |folder|
  {
    var s := folder + "/" + name;
    assert s[|folder|] == '/';
    assert forall k :: |folder| < k < |s| ==> s[k] == name[k - |folder| - 1];
  }

  /** Trimming a path that ends in a name leaves the name, or some folder before it. */
  lemma {:induction false} TrimmedJoin(folder: string, name: string)
    requires IsName(name)
    ensures TrimSlashes(folder + "/" + name) == TrimLeftSlashes(folder + "/" + name)
    ensures TrimSlashes(folder + "/" + name) == name
      || exists rest :: TrimSlashes(folder + "/" + name) == rest + "/" + name
    ensures folder != "" && folder[0] != '/' ==> TrimSlashes(folder + "/" + name) == folder + "/" + name
    ensures folder == "" ==> TrimSlashes(folder + "/" + name) == name
  {
    var s := folder + "/" + name;
    if folder == "" {
      assert s[1..] == name;
    } else if folder[0] == '/' {
      assert s[1..] == folder[1..] + "/" + name;
      TrimmedJoin(folder[1..], name);
    } else {
      assert s[|s| - 1] == name[|name| - 1];
    }
  }

  /** The base name of a folder and a name is the name. */
  lemma BaseOfJoin(folder: string, name: string)
    requires IsName(name)
    ensures BaseName(folder + "/" + name) == name
  {
    TrimmedJoin(folder, name);
    var t := TrimSlashes(folder + "/" + name);
    LastElementFollowsSlash(t);
    if t == name {
      assert LastSlash(name) == -1;
    } else {
      var rest :| t == rest + "/" + name;
      LastSlashOfJoin(rest, name);
    }
  }

  /** Nor does the folder of a path begin with a slash. */
  lemma {:induction false} TrimmedFront(s: string)
    ensures TrimLeftSlashes(s) != "" ==> TrimLeftSlashes(s)[0] != '/'
  {
    if s != "" {
      TrimmedFront(s[1..]);
    }
  }

  lemma {:induction false} RightTrimIsPrefix(s: string)
    ensures TrimRightSlashes(s) <= s
  {
    if s != "" {
      RightTrimIsPrefix(s[..|s| - 1]);
    }
  }

  lemma FolderFront(davPath: string)
    ensures DirName(davPath) != "" ==> DirName(davPath)[0] != '/'
  {
    TrimmedFront(davPath);
    RightTrimIsPrefix(TrimLeftSlashes(davPath));
  }

  /** The folder of a path's folder and another name is that folder. */
  lemma FolderOfJoin(davPath: string, name: string)
    requires IsName(name)
    ensures DirName(DirName(davPath) + "/" + name) == DirName(davPath)
  {
    var folder := DirName(davPath);
    FolderFront(davPath);
    TrimmedJoin(folder, name);
    if folder == "" {
      assert LastSlash(name) == -1;
    } else {
      LastSlashOfJoin(folder, name);
    }
  }

  /** A name put into a folder lies in that folder, whatever slashes the folder is written with. */
  lemma {:induction false} FolderOfPlaced(folder: string, name: string)
    requires IsName(name)
    ensures DirName(TrimRightSlashes(folder) + "/" + name) == TrimSlashes(folder)
  {
    TrimsCommute(folder);
    TrimmedBack(folder);
    DirOfJoin(TrimRightSlashes(folder), name);
  }

  /** Trimming on the right first comes to the same. */
  lemma {:induction false} TrimsCommute(s: string)
    ensures TrimLeftSlashes(TrimRightSlashes(s)) == TrimSlashes(s)
  {
    if s != "" && s[|s| - 1] == '/' {
      var most := s[..|s| - 1];
      TrimsCommute(most);
      LeftTrimOfLonger(most);
      assert s == most + "/";
    } else if s != "" {
      LeftTrimKeepsEnd(s);
    }
  }

  lemma {:induction false} LeftTrimOfLonger(s: string)
    ensures TrimRightSlashes(TrimLeftSlashes(s + "/")) == TrimRightSlashes(TrimLeftSlashes(s))
  {
    if s == "" {
      assert TrimLeftSlashes("/") == TrimLeftSlashes("/"[1..]) && "/"[1..] == "";
    } else if s[0] == '/' {
      assert (s + "/")[1..] == s[1..] + "/";
      LeftTrimOfLonger(s[1..]);
    } else {
      assert (s + "/")[..|s|] == s;
    }
  }

  lemma {:induction false} LeftTrimKeepsEnd(s: string)
    requires s != "" && s[|s| - 1] != '/'
    ensures TrimLeftSlashes(s) != "" && TrimLeftSlashes(s)[|TrimLeftSlashes(s)| - 1] == s[|s| - 1]
  {
    if s[0] == '/' {
      LeftTrimKeepsEnd(s[1..]);
    }
  }

  /** The folder of a join, for a folder that does not end in a slash. */
  lemma {:induction false} DirOfJoin(folder: string, name: string)
    requires IsName(name) && (folder != "" ==> folder[|folder| - 1] != '/')
    ensures DirName(folder + "/" + name) == TrimLeftSlashes(folder)
  {
    TrimmedJoin(folder, name);
    if folder == "" {
      assert LastSlash(name) == -1;
    } else if folder[0] == '/' {
      assert (folder + "/" + name)[1..] == folder[1..] + "/" + name;
      assert folder[1..] != "" ==> folder[1..][|folder| - 2] == folder[|folder| - 1];
      DirOfJoin(folder[1..], name);
      TrimmedJoin(folder[1..], name);
    } else {
      LastSlashOfJoin(folder, name);
    }
  }

  /** The comment sidecars lie in one folder, side by side. */
  lemma SidecarFolder(davPath: string)
    ensures DirName(SidecarPath(davPath)) == ".workflows/comments"
  {
    Base64HasNoSlash(davPath);
    var name := Base64(davPath) + ".json";
    assert SidecarPath(davPath) == ".workflows/comments" + "/" + name;
    DirOfJoin(".workflows/comments", name);
  }

  lemma BaseIsName(davPath: string)
    requires TrimSlashes(davPath) != ""
    ensures IsName(BaseName(davPath))
  {
    TrimmedBack(TrimLeftSlashes(davPath));
    PathParts(davPath);
  }

  predicate AllSlashes(s: string) {
    forall c :: c in s ==> c == '/'
  }

  lemma {:induction false} LeftTrimParts(s: string) returns (left: string)
    ensures AllSlashes(left) && s == left + TrimLeftSlashes(s)
  {
    if s != "" && s[0] == '/' {
      left := LeftTrimParts(s[1..]);
      left := "/" + left;
    } else {
      left := "";
    }
  }

  lemma {:induction false} RightTrimParts(s: string) returns (right: string)
    ensures AllSlashes(right) && s == TrimRightSlashes(s) + right
  {
    if s != "" && s[|s| - 1] == '/' {
      right := RightTrimParts(s[..|s| - 1]);
      right := right + "/";
    } else {
      right := "";
    }
  }

  /** Trimming takes off the slashes at both ends, all of them and nothing else. */
  lemma TrimmedParts(s: string) returns (left: string, right: string)
    ensures AllSlashes(left) && AllSlashes(right) && s == left + TrimSlashes(s) + right
    ensures TrimSlashes(s) != "" ==> TrimSlashes(s)[0] != '/' && TrimSlashes(s)[|TrimSlashes(s)| - 1] != '/'
  {
    left := LeftTrimParts(s);
    right := RightTrimParts(TrimLeftSlashes(s));
    TrimmedFront(s);
    TrimmedBack(TrimLeftSlashes(s));
    RightTrimIsPrefix(TrimLeftSlashes(s));
    Associate(left, TrimSlashes(s), right);
  }

  lemma {:induction false} TrimmedBack(s: string)
    ensures TrimRightSlashes(s) != "" ==> TrimRightSlashes(s)[|TrimRightSlashes(s)| - 1] != '/'
  {
    if s != "" {
      TrimmedBack(s[..|s| - 1]);
    }
  }
}
