/** np_single_proc's table of clients, as a value: who is logged in under which id, and their names.
    The id of index i is i + 1; descriptor 0 marks a free slot. */
module Registry {

  const MAX_USER_NUM: nat := 60
  /** The user-pipe matrix has room for ids 1..30. */
  const MAX_ID: nat := 30
  const NO_NAME: string := "(no name)"

  /** split_space: the maximal runs of characters other than blank. */
  function Tokens(s: string): (r: seq<string>)
    ensures forall t <- r :: t != "" && ' ' !in t
    decreases |s|
  {
    if s == "" then []
    else if s[0] == ' ' then Tokens(s[1..])
    else
      var n := WordLength(s);
      [s[..n]] + Tokens(s[n..])
  }

  function WordLength(s: string): (n: nat)
    ensures n <= |s| && ' ' !in s[..n]
    ensures s != "" && s[0] != ' ' ==> n > 0
    ensures n < |s| ==> s[n] == ' '
  {
    if s == "" || s[0] == ' ' then 0
    else
      var m := WordLength(s[1..]);
      assert s[..m + 1] == [s[0]] + s[1..][..m];
      m + 1
  }

  /** A word, the blank after it, and the rest. */
  lemma FirstToken(a: string, rest: string)
    requires a != "" && ' ' !in a
    ensures Tokens(a) == [a] && Tokens(a + " " + rest) == [a] + Tokens(rest)
  {
    assert a[0] in a;
    WordIs(a, "");
    assert a + "" == a && a[|a|..] == "";
    var s := a + " " + rest;
    assert s == a + (" " + rest);
    WordIs(a, " " + rest);
    assert s[|a|..] == " " + rest && (" " + rest)[1..] == rest && s[..|a|] == a;
  }

  lemma {:induction false} WordIs(a: string, rest: string)
    requires ' ' !in a && (rest == "" || rest[0] == ' ')
    ensures WordLength(a + rest) == |a|
  {
    if a == "" {
      assert a + rest == rest;
    } else {
      assert a[0] in a && (a + rest)[1..] == a[1..] + rest;
      WordIs(a[1..], rest);
    }
  }

  /** split_space gives back the words of a line, however many blanks separate them. */
  lemma {:induction false} TokensOfWords(words: seq<string>, gaps: seq<nat>)
    requires |gaps| == |words| && forall w <- words :: w != "" && ' ' !in w
    ensures Tokens(Spaced(words, gaps)) == words
  {
    if words != [] {
      assert words[0] in words && forall w <- words[1..] :: w in words;
      var rest := Spaced(words[1..], gaps[1..]);
      TokensOfWords(words[1..], gaps[1..]);
      FirstToken(words[0], rest);
      SkipBlanks(gaps[0], words[0] + " " + rest);
    }
  }

  /** Each word after so many blanks, and followed by one more. */
  function Spaced(words: seq<string>, gaps: seq<nat>): string
    requires |gaps| == |words|
  {
    if words == [] then "" else Blanks(gaps[0]) + (words[0] + " " + Spaced(words[1..], gaps[1..]))
  }

  function Blanks(n: nat): string {
    seq(n, _ => ' ')
  }

  lemma {:induction false} SkipBlanks(n: nat, s: string)
    ensures Tokens(Blanks(n) + s) == Tokens(s)
  {
    if n == 0 {
      assert Blanks(0) + s == s;
    } else {
      assert (Blanks(n) + s)[1..] == Blanks(n - 1) + s;
      SkipBlanks(n - 1, s);
    }
  }

  /** The words of a command `name x`. */
  lemma TwoTokens(a: string, b: string)
    requires a != "" && b != "" && ' ' !in a && ' ' !in b
    ensures Tokens(a + " " + b) == [a, b]
  {
    FirstToken(a, b);
    FirstToken(b, "");
  }

  datatype Reg = Reg(fds: seq<nat>, names: seq<string>, size: nat) {
    ghost predicate Inv() {
      && |fds| == |names| == MAX_USER_NUM && size <= MAX_USER_NUM
      && (forall i :: size <= i < MAX_USER_NUM ==> fds[i] == 0)
      && (forall i, j :: 0 <= i < j < size && fds[i] != 0 ==> fds[i] != fds[j])
    }

    /** Two logged-in users share a name only while both are unnamed. */
    ghost predicate NamesDistinct()
      requires Inv()
    {
      forall i, j | 0 <= i < j < size && fds[i] != 0 && fds[j] != 0 && names[i] == names[j] ::
        names[i] == NO_NAME
    }

    predicate Live(fd: nat) {
      fd != 0 && fd in fds
    }

    predicate LiveId(id: int)
      requires |fds| == MAX_USER_NUM
    {
      1 <= id <= MAX_ID && fds[id - 1] != 0
    }

    /** The scan for a descriptor among the first `size` slots. */
    function Find(fd: nat, from: nat): (r: int)
      requires from <= size <= |fds|
      ensures r == -1 || (from <= r < size && fds[r] == fd)
      ensures forall i :: from <= i < (if r == -1 then size else r) ==> fds[i] != fd
      decreases size - from
    {
      if from == size then -1 else if fds[from] == fd then from else Find(fd, from + 1)
    }

    /** A logged-in client's id. */
    function IdOf(fd: nat): int
      requires size <= |fds|
    {
      Find(fd, 0) + 1
    }

    /** Room for a login from slot `from` on. */
    predicate HasRoom(from: nat)
      requires |fds| == MAX_USER_NUM
    {
      exists i :: from <= i < MAX_USER_NUM && fds[i] == 0
    }

    /** Login takes the first free slot at or below `size`. */
    function FirstFree(from: nat): (r: nat)
      requires Inv() && from <= size && HasRoom(from)
      ensures from <= r <= size && r < MAX_USER_NUM && fds[r] == 0
      ensures forall i :: from <= i < r ==> fds[i] != 0
      decreases size - from
    {
      if fds[from] == 0 then from else FirstFree(from + 1)
    }

    function Login(fd: nat): Reg
      requires Inv() && HasRoom(0)
    {
      var i := FirstFree(0);
      Reg(fds[i := fd], names[i := NO_NAME], if i == size then size + 1 else size)
    }

    function Logout(fd: nat): Reg
      requires Inv() && Live(fd)
    {
      this.(fds := fds[Find(fd, 0) := 0])
    }

    /** Another logged-in user already has this name. */
    predicate Taken(fd: nat, name: string)
      requires size <= |fds| && size <= |names|
    {
      exists i :: 0 <= i < size && fds[i] != fd && fds[i] != 0 && names[i] == name
    }

    function Rename(fd: nat, name: string): Reg
      requires Inv() && Live(fd)
    {
      if Taken(fd, name) then this else this.(names := names[Find(fd, 0) := name])
    }
  }

  /** Nobody is logged in. */
  function Nobody(): Reg {
    Reg(seq(MAX_USER_NUM, _ => 0), seq(MAX_USER_NUM, _ => ""), 0)
  }

  /** A live descriptor is found, at the only slot that holds it. */
  lemma FindLive(r: Reg, fd: nat)
    requires r.Inv() && r.Live(fd)
    ensures r.Find(fd, 0) != -1
    ensures forall i :: 0 <= i < MAX_USER_NUM && r.fds[i] == fd ==> i == r.Find(fd, 0)
  {
  }

  /** An id is live exactly when it is the id of some logged-in client. */
  lemma LiveIdIff(r: Reg, id: int)
    requires r.Inv()
    ensures r.LiveId(id) <==> 1 <= id <= MAX_ID && exists fd :: r.Live(fd) && r.IdOf(fd) == id
  {
    if r.LiveId(id) {
      var fd := r.fds[id - 1];
      assert r.Live(fd);
      FindLive(r, fd);
    }
    if 1 <= id <= MAX_ID && exists fd :: r.Live(fd) && r.IdOf(fd) == id {
      var fd :| r.Live(fd) && r.IdOf(fd) == id;
      FindLive(r, fd);
    }
  }

  /** A login gets the lowest free id, becomes live and unnamed, and moves nobody. */
  lemma LoginInv(r: Reg, fd: nat)
    requires r.Inv() && r.NamesDistinct() && r.HasRoom(0) && fd != 0 && !r.Live(fd)
    ensures var r', i := r.Login(fd), r.FirstFree(0);
            && r'.Inv() && r'.NamesDistinct()
            && r.fds[i] == 0 && (forall j :: 0 <= j < i ==> r.fds[j] != 0)
            && r'.fds[i] == fd && r'.names[i] == NO_NAME && r'.IdOf(fd) == i + 1
            && (forall j :: 0 <= j < MAX_USER_NUM && j != i ==> r'.fds[j] == r.fds[j] && r'.names[j] == r.names[j])
  {
    var r', i := r.Login(fd), r.FirstFree(0);
    LoginKeeps(r, fd);
    assert r'.fds[i] == fd;
    FindLive(r', fd);
  }

  lemma LoginKeeps(r: Reg, fd: nat)
    requires r.Inv() && r.NamesDistinct() && r.HasRoom(0) && fd != 0 && !r.Live(fd)
    ensures r.Login(fd).Inv() && r.Login(fd).NamesDistinct()
  {
    var r' := r.Login(fd);
    forall i, j | 0 <= i < j < r'.size && r'.fds[i] != 0 ensures r'.fds[i] != r'.fds[j] {
      assert r.fds[i] in r.fds && r.fds[j] in r.fds;
    }
  }

  /** A logout frees exactly the leaver's id; nobody's id or name changes. */
  lemma LogoutInv(r: Reg, fd: nat)
    requires r.Inv() && r.NamesDistinct() && r.Live(fd)
    ensures r.Find(fd, 0) != -1
    ensures var r' := r.Logout(fd);
            && r'.Inv() && r'.NamesDistinct() && !r'.Live(fd)
            && (forall other :: other != fd && r.Live(other) ==> r'.Live(other) && r'.IdOf(other) == r.IdOf(other))
            && (forall i :: 0 <= i < MAX_USER_NUM ==>
                  r'.names[i] == r.names[i] && r'.fds[i] == if r.fds[i] == fd then 0 else r.fds[i])
  {
    FindLive(r, fd);
    var r' := r.Logout(fd);
    forall other | other != fd && r.Live(other) ensures r'.Live(other) && r'.IdOf(other) == r.IdOf(other) {
      FindLive(r, other);
      assert r'.fds[r.Find(other, 0)] == other;
      FindLive(r', other);
    }
  }

  /** A rename keeps names distinct: no operand of split_space contains a blank, so nobody can take
      the name of the unnamed. The caller gets the name exactly when no other logged-in user has it; names
      left behind in free slots do not count. */
  lemma RenameInv(r: Reg, fd: nat, cmd: string)
    requires r.Inv() && r.NamesDistinct() && r.Live(fd) && |Tokens(cmd)| >= 2
    ensures r.Find(fd, 0) != -1
    ensures var name, r' := Tokens(cmd)[1], r.Rename(fd, Tokens(cmd)[1]);
            && r'.Inv() && r'.NamesDistinct() && r'.fds == r.fds && name != NO_NAME
            && (r'.names[r.Find(fd, 0)] == name <==>
                r.names[r.Find(fd, 0)] == name || forall i | 0 <= i < MAX_USER_NUM && r.fds[i] != 0 && r.fds[i] != fd ::
                                                    r.names[i] != name)
            && (r'.names[r.Find(fd, 0)] != name ==> r' == r)
            && (forall i :: 0 <= i < MAX_USER_NUM && i != r.Find(fd, 0) ==> r'.names[i] == r.names[i])
  {
    FindLive(r, fd);
    var name := Tokens(cmd)[1];
    assert name in Tokens(cmd);
    assert NO_NAME[3] == ' ';
    assert NO_NAME[3] in NO_NAME;
  }
}
