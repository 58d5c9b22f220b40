/** The administrators' user list of ListUsers.tsx: the auth accounts, a remarks map built from the
    profile rows, a multi-word case-insensitive search over both, and client-side pages of four. */
module UserAdmin {
  import opened Base
  import opened Text
  import opened Backend

  const RecordsPerPage := 4
  const DefaultRole := "未設定"
  const DefaultNickname := "名無し"

  /** A remarks entry: the profile's role and nickname with their defaults, and its creation time. */
  datatype Remark = Remark(role: string, nickname: string, createdAt: string)

  /** `{ role: profile.role ?? '未設定', nickname: profile.nickname ?? '名無し', created_at }` */
  function RemarkOf(p: ProfileRow): (r: Remark)
    ensures r.role == if p.role.Some? then p.role.value else DefaultRole
    ensures r.nickname == if p.nickname.Some? then p.nickname.value else DefaultNickname
    ensures r.createdAt == p.createdAt
  {
    Remark(if p.role.Some? then p.role.value else DefaultRole,
           if p.nickname.Some? then p.nickname.value else DefaultNickname,
           p.createdAt)
  }

  /** The map the `forEach` over the profile rows leaves: a later row overwrites an earlier one. */
  function RemarksOf(rows: seq<ProfileRow>): map<string, Remark>
  {
    if rows == [] then map[]
    else RemarksOf(rows[..|rows| - 1])[Last(rows).id := RemarkOf(Last(rows))]
  }

  /** Row `i` is the last row with that id. */
  predicate LastWithId(rows: seq<ProfileRow>, id: string, i: int) {
    0 <= i < |rows| && rows[i].id == id && forall j :: i < j < |rows| ==> rows[j].id != id
  }

  /** The map holds an entry exactly for the ids of the rows. */
  lemma {:induction false} RemarksOfKeys(rows: seq<ProfileRow>, id: string)
    ensures id in RemarksOf(rows) <==> exists i :: 0 <= i < |rows| && rows[i].id == id
    decreases |rows|
  {
    if rows != [] {
      var init := rows[..|rows| - 1];
      RemarksOfKeys(init, id);
      assert forall i :: 0 <= i < |init| ==> rows[i] == init[i];
      if Last(rows).id == id {
        assert rows[|rows| - 1].id == id;
      }
    }
  }

  /** Each entry is the remark of the last row with that id. */
  lemma {:induction false} RemarksOfValues(rows: seq<ProfileRow>, id: string)
    requires id in RemarksOf(rows)
    ensures exists i :: LastWithId(rows, id, i) && RemarksOf(rows)[id] == RemarkOf(rows[i])
    decreases |rows|
  {
    var init := rows[..|rows| - 1];
    if Last(rows).id == id {
      assert LastWithId(rows, id, |rows| - 1);
    } else {
      RemarksOfValues(init, id);
      var i :| LastWithId(init, id, i) && RemarksOf(init)[id] == RemarkOf(init[i]);
      assert rows[i] == init[i];
      assert LastWithId(rows, id, i);
    }
  }

  /** With unique profile ids, a row's entry is that row's remark. */
  lemma RemarksOfUnique(rows: seq<ProfileRow>, i: nat)
    requires i < |rows|
    requires forall j, k :: 0 <= j < k < |rows| ==> rows[j].id != rows[k].id
    ensures rows[i].id in RemarksOf(rows) && RemarksOf(rows)[rows[i].id] == RemarkOf(rows[i])
  {
    var id := rows[i].id;
    RemarksOfKeys(rows, id);
    RemarksOfValues(rows, id);
    var k :| LastWithId(rows, id, k) && RemarksOf(rows)[id] == RemarkOf(rows[k]);
    LastWithIdUnique(rows, i, k);
  }

  /** With unique ids, the last row with a row's id is that row. */
  lemma LastWithIdUnique(rows: seq<ProfileRow>, i: nat, k: int)
    requires i < |rows|
    requires forall j, k :: 0 <= j < k < |rows| ==> rows[j].id != rows[k].id
    requires LastWithId(rows, rows[i].id, k)
    ensures k == i
  {
  }

  /** The `forEach` that builds the remarks map. */
  method BuildRemarks(rows: seq<ProfileRow>) returns (m: map<string, Remark>)
    ensures m == RemarksOf(rows)
  {
    m := map[];
    var i := 0;
    while i < |rows|
      invariant 0 <= i <= |rows|
      invariant m == RemarksOf(rows[..i])
    {
      assert rows[..i + 1][..i] == rows[..i];
      m := m[rows[i].id := RemarkOf(rows[i])];
      i := i + 1;
    }
    assert rows[..i] == rows;
  }

  /** `remarks[user.id] || { role: '未設定', nickname: '名無し', created_at: '' }` */
  function ProfileOf(remarks: map<string, Remark>, id: string): (r: Remark)
    ensures id in remarks ==> r == remarks[id]
    ensures id !in remarks ==> r == Remark(DefaultRole, DefaultNickname, "")
  {
    if id in remarks then remarks[id] else Remark(DefaultRole, DefaultNickname, "")
  }

  /** `searchQuery.toLowerCase().trim().split(/\s+/)` */
  function SearchWords(query: string): (words: seq<string>)
    ensures |words| >= 1
    ensures forall k :: 0 <= k < |words| ==> NoSpace(words[k])
    ensures AllSpace(query) ==> words == [""]
    ensures !AllSpace(query) ==> forall k :: 0 <= k < |words| ==> words[k] != ""
    ensures exists seps :: IsSpaceSplit(words, seps, Trim(ToLower(query)))
  {
    ToLowerKeepsSpace(query);
    TrimmedWords(ToLower(query));
    SplitSpacesRuns(Trim(ToLower(query)));
    SplitSpaces(Trim(ToLower(query)))
  }

  /** One word is found in the lower-cased id, email, role, nickname or creation time. */
  predicate WordMatches(u: Account, r: Remark, word: string) {
    Includes(ToLower(u.id), word) || Includes(ToLower(u.email), word) || Includes(ToLower(r.role), word)
    || Includes(ToLower(r.nickname), word) || Includes(ToLower(r.createdAt), word)
  }

  /** `searchWords.every(...)` for one user. */
  predicate Keeps(u: Account, remarks: map<string, Remark>, words: seq<string>) {
    forall k :: 0 <= k < |words| ==> WordMatches(u, ProfileOf(remarks, u.id), words[k])
  }

  function Matcher(remarks: map<string, Remark>, words: seq<string>): Account -> bool
  {
    (u: Account) => Keeps(u, remarks, words)
  }

  /** The users every word finds, in their order; written out element by element so that the
      search stays a single unfolding step where the component state mentions it. */
  function FilterByWords(users: seq<Account>, remarks: map<string, Remark>, words: seq<string>): seq<Account>
  {
    if users == [] then []
    else (if Keeps(users[0], remarks, words) then [users[0]] else []) + FilterByWords(users[1..], remarks, words)
  }

  /** The search is `Array.prototype.filter` with the word matcher. */
  lemma {:induction false} FilterByWordsIsFilter(users: seq<Account>, remarks: map<string, Remark>, words: seq<string>)
    ensures FilterByWords(users, remarks, words) == Filter(users, Matcher(remarks, words))
  {
    if users != [] {
      FilterByWordsIsFilter(users[1..], remarks, words);
    }
  }

  function NotUser(id: string): Account -> bool
  {
    (u: Account) => u.id != id
  }

  /** `users.filter((user) => user.id !== userId)` */
  function WithoutUser(users: seq<Account>, id: string): (r: seq<Account>)
    ensures IsSubsequence(r, users)
    ensures forall u :: u in r <==> u in users && u.id != id
  {
    Filter(users, NotUser(id))
  }

  /** The search effect's `users.filter(...)`: the users, in their order, every word of the query
      being found in one of their fields. */
  function FilterUsers(users: seq<Account>, remarks: map<string, Remark>, query: string): seq<Account>
  {
    FilterByWords(users, remarks, SearchWords(query))
  }

  /** The search keeps, in their order, exactly the users every word of the query finds. */
  lemma FilterUsersMeaning(users: seq<Account>, remarks: map<string, Remark>, query: string)
    ensures IsSubsequence(FilterUsers(users, remarks, query), users)
    ensures forall u :: u in FilterUsers(users, remarks, query) <==> u in users && Keeps(u, remarks, SearchWords(query))
  {
    FilterByWordsIsFilter(users, remarks, SearchWords(query));
  }

  /** Every string contains the empty word. */
  lemma IncludesEmpty(s: string)
    ensures Includes(s, "")
  {
    assert StartsWith(s, "");
  }

  /** A query of white space only, the empty one included, keeps every user. */
  lemma BlankQueryKeepsAll(users: seq<Account>, remarks: map<string, Remark>, query: string)
    requires AllSpace(query)
    ensures FilterUsers(users, remarks, query) == users
  {
    FilterByWordsIsFilter(users, remarks, SearchWords(query));
    IncludesEmpty(ToLower(""));
    forall u | u in users
      ensures Keeps(u, remarks, SearchWords(query))
    {
      IncludesEmpty(ToLower(u.id));
    }
  }

  /** The search ignores the ASCII case of the query. */
  lemma SearchIgnoresQueryCase(users: seq<Account>, remarks: map<string, Remark>, query: string)
    ensures FilterUsers(users, remarks, ToLower(query)) == FilterUsers(users, remarks, query)
  {
    ToLowerIdempotent(query);
  }

  /** A user with no remarks entry is searched under the defaults: its role and nickname words
      find it. */
  lemma DefaultsAreSearched(u: Account, remarks: map<string, Remark>)
    requires u.id !in remarks
    ensures Keeps(u, remarks, ["名無し"]) && Keeps(u, remarks, ["未設定"])
  {
    assert ToLower(DefaultNickname) == DefaultNickname;
    assert ToLower(DefaultRole) == DefaultRole;
    IncludesAt(DefaultNickname, "名無し", 0);
    IncludesAt(DefaultRole, "未設定", 0);
  }

  /** Deleting a user from the filtered list gives the same list as filtering the reduced users. */
  lemma DeleteCommutesWithSearch(users: seq<Account>, remarks: map<string, Remark>, query: string, id: string)
    ensures FilterUsers(WithoutUser(users, id), remarks, query) == WithoutUser(FilterUsers(users, remarks, query), id)
  {
    var words := SearchWords(query);
    FilterByWordsIsFilter(users, remarks, words);
    FilterByWordsIsFilter(WithoutUser(users, id), remarks, words);
    FilterCommutes(users, NotUser(id), Matcher(remarks, words));
  }

  /** `Array.prototype.slice(start, end)`: negative bounds count from the end, bounds are clamped. */
  function JsSlice<T>(s: seq<T>, start: int, end: int): (r: seq<T>)
    ensures |r| <= |s|
  {
    var from := if start < 0 then (if |s| + start < 0 then 0 else |s| + start) else (if start > |s| then |s| else start);
    var to := if end < 0 then (if |s| + end < 0 then 0 else |s| + end) else (if end > |s| then |s| else end);
    if from >= to then [] else s[from..to]
  }

  function Min(a: int, b: int): int {
    if a <= b then a else b
  }

  /** `selectedUsers`: `filteredUsers.slice(startIndex, startIndex + recordsPerPage)`. */
  function PageOf(users: seq<Account>, page: int): (r: seq<Account>)
    ensures page >= 1 ==> r == users[Min((page - 1) * RecordsPerPage, |users|)..Min(page * RecordsPerPage, |users|)]
    ensures |r| <= RecordsPerPage
  {
    var start := (page - 1) * RecordsPerPage;
    JsSlice(users, start, start + RecordsPerPage)
  }

  /** `Math.ceil(filteredUsers.length / recordsPerPage)` */
  function TotalPages(n: nat): (r: nat)
    ensures RecordsPerPage * r >= n && RecordsPerPage * r < n + RecordsPerPage
  {
    (n + RecordsPerPage - 1) / RecordsPerPage
  }

  /** Pages 1 to `k`, one after another. */
  function PagesUpTo(users: seq<Account>, k: nat): seq<Account>
  {
    if k == 0 then [] else PagesUpTo(users, k - 1) + PageOf(users, k)
  }

  lemma {:induction false} PagesUpToPrefix(users: seq<Account>, k: nat)
    ensures PagesUpTo(users, k) == users[..Min(k * RecordsPerPage, |users|)]
  {
    if k > 0 {
      PagesUpToPrefix(users, k - 1);
    }
  }

  /** The pages shown by the page buttons cover the filtered list exactly once, in order. */
  lemma PagesCoverList(users: seq<Account>)
    ensures PagesUpTo(users, TotalPages(|users|)) == users
  {
    PagesUpToPrefix(users, TotalPages(|users|));
  }

  /** Entry `i` of the list is shown on page `i / 4 + 1` and on no other page. */
  lemma EntryOnOnePage(users: seq<Account>, i: nat, page: int)
    requires i < |users| && page >= 1
    ensures var s := (page - 1) * RecordsPerPage;
      (s <= i < s + RecordsPerPage) <==> page == i / RecordsPerPage + 1
  {
  }

  /** The intended role change: the entry keeps its other fields, and a user without an entry gets
      the search defaults around the new role. */
  function RoleChange(remarks: map<string, Remark>, id: string, role: string): (r: map<string, Remark>)
    ensures id in r && r[id].role == role
  {
    remarks[id := if id in remarks then remarks[id].(role := role) else Remark(role, DefaultNickname, "")]
  }

  /** Only that user's entry changes: it gets the role and keeps its other fields, and a user
      without an entry gets the defaults of line 101. */
  lemma RoleChangeMeaning(remarks: map<string, Remark>, id: string, role: string)
    ensures RoleChange(remarks, id, role).Keys == remarks.Keys + {id}
    ensures id in remarks ==> RoleChange(remarks, id, role)[id] == remarks[id].(role := role)
    ensures id !in remarks ==> RoleChange(remarks, id, role)[id] == Remark(role, DefaultNickname, "")
    ensures forall other :: other in remarks && other != id ==> RoleChange(remarks, id, role)[other] == remarks[other]
  {
  }

  /** `isAdmin ? 'admin' : 'user'` */
  function NewRole(isAdmin: bool): string
  {
    if isAdmin then "admin" else "user"
  }

  /** A remarks entry as `{ ...prevRemarks[userId], role }` writes it: without a previous entry the
      spread adds nothing and only `role` is present. */
  datatype PartialRemark = PartialRemark(role: Option<string>, nickname: Option<string>, createdAt: Option<string>)

  function Partial(r: Remark): PartialRemark
  {
    PartialRemark(Some(r.role), Some(r.nickname), Some(r.createdAt))
  }

  /** The role change as written. */
  function RoleChangeAsWritten(remarks: map<string, PartialRemark>, id: string, role: string): (r: map<string, PartialRemark>)
    ensures id in r
    ensures id in remarks ==> r[id] == remarks[id].(role := Some(role))
    ensures id !in remarks ==> r[id] == PartialRemark(Some(role), None, None)
  {
    remarks[id := if id in remarks then remarks[id].(role := Some(role)) else PartialRemark(Some(role), None, None)]
  }

  /** `toLowerCase().includes(word)` on a field that may be missing: `Err` is the TypeError. */
  function FieldIncludes(field: Option<string>, word: string): Result<bool>
  {
    if field.Some? then Ok(Includes(ToLower(field.value), word)) else Err
  }

  /** One word of the search as line 108 evaluates it, left to right with short-circuit `||`. */
  function WordCheckAsWritten(u: Account, r: PartialRemark, word: string): (res: Result<bool>)
    ensures r.role.Some? && r.nickname.Some? && r.createdAt.Some? ==>
      res == Ok(WordMatches(u, Remark(r.role.value, r.nickname.value, r.createdAt.value), word))
  {
    if Includes(ToLower(u.id), word) || Includes(ToLower(u.email), word) then Ok(true)
    else match FieldIncludes(r.role, word)
      case Err => Err
      case Ok(true) => Ok(true)
      case Ok(false) =>
        match FieldIncludes(r.nickname, word)
        case Err => Err
        case Ok(true) => Ok(true)
        case Ok(false) => FieldIncludes(r.createdAt, word)
  }

  /** Granting a role to a user who has no profile row, then searching for a word found in none of
      the user's id, email or role, throws as written; the intended role change fills the defaults,
      so the same search simply leaves the user out. */
  lemma RoleChangeFinding()
    ensures var u := Account("u1", "a@b");
      WordCheckAsWritten(u, RoleChangeAsWritten(map[], "u1", "admin")["u1"], "zzzzzz") == Err
      && !Keeps(u, RoleChange(map[], "u1", "admin"), ["zzzzzz"])
  {
    var u := Account("u1", "a@b");
    var w := "zzzzzz";
    assert !Includes(ToLower(u.id), w) && !Includes(ToLower(u.email), w) && !Includes(ToLower("admin"), w);
    assert !Includes(ToLower(DefaultNickname), w) && !Includes(ToLower(""), w);
    var partial := RoleChangeAsWritten(map[], "u1", "admin")["u1"];
    assert partial == PartialRemark(Some("admin"), None, None);
    assert FieldIncludes(partial.role, w) == Ok(false);
    var m := RoleChange(map[], "u1", "admin");
    assert ProfileOf(m, u.id) == Remark("admin", DefaultNickname, "");
    assert !WordMatches(u, ProfileOf(m, u.id), ["zzzzzz"][0]);
  }

  /** On entries that came from profile rows, the two role changes agree. */
  lemma RoleChangeAgrees(remarks: map<string, Remark>, id: string, role: string)
    requires id in remarks
    ensures RoleChangeAsWritten(map k | k in remarks :: Partial(remarks[k]), id, role)[id]
      == Partial(RoleChange(remarks, id, role)[id])
  {
  }

  /** The state of the ListUsers component. */
  class UserList {
    var users: seq<Account>
    var filteredUsers: seq<Account>
    var remarks: map<string, Remark>
    var currentPage: int
    var searchQuery: string

    /** The filtered list is the search result over the current users, remarks and query. */
    predicate Valid()
      reads this
    {
      filteredUsers == FilterUsers(users, remarks, searchQuery)
    }

    constructor ()
      ensures users == [] && filteredUsers == [] && remarks == map[] && currentPage == 1 && searchQuery == ""
      ensures Valid()
    {
      users := [];
      filteredUsers := [];
      remarks := map[];
      currentPage := 1;
      searchQuery := "";
    }

    /** The users on the current page. */
    function SelectedUsers(): (r: seq<Account>)
      reads this
      ensures |r| <= RecordsPerPage
      ensures (currentPage >= 1 ==>
        r == filteredUsers[Min((currentPage - 1) * RecordsPerPage, |filteredUsers|)..Min(currentPage * RecordsPerPage, |filteredUsers|)])
    {
      PageOf(filteredUsers, currentPage)
    }

    /** The search effect, which runs whenever `users`, `remarks` or `searchQuery` is replaced: the
        filtered list is recomputed and the page goes back to 1 (as the effect on `filteredUsers`
        also does). */
    method SearchEffect()
      modifies this`filteredUsers, this`currentPage
      ensures filteredUsers == FilterUsers(users, remarks, searchQuery) && currentPage == 1
      ensures Valid()
    {
      filteredUsers := FilterUsers(users, remarks, searchQuery);
      currentPage := 1;
    }

    /** `fetchUsers`: the account list replaces both lists, then the profile rows replace the
        remarks; each step is skipped on its own error. */
    method FetchUsers(store: Store, listFails: bool, profileFails: bool)
      modifies this`users, this`filteredUsers, this`remarks, this`currentPage
      ensures users == if listFails then old(users) else store.accounts
      ensures remarks == if profileFails then old(remarks) else RemarksOf(store.profiles)
      ensures listFails && profileFails ==> filteredUsers == old(filteredUsers) && currentPage == old(currentPage)
      ensures !(listFails && profileFails) ==> filteredUsers == FilterUsers(users, remarks, searchQuery) && currentPage == 1
      ensures old(Valid()) ==> Valid()
    {
      var list := store.ListAccounts(listFails);
      if list.Ok? {
        users := list.value;
        filteredUsers := list.value;
      }
      var rows := store.SelectProfiles(profileFails);
      if rows.Ok? {
        remarks := BuildRemarks(rows.value);
      }
      if list.Ok? || rows.Ok? {
        SearchEffect();
      }
    }

    /** `handlePageChange` */
    method HandlePageChange(page: int)
      modifies this`currentPage
      ensures currentPage == page
    {
      currentPage := page;
    }

    /** `handleDelete` (the `onDelete` of a DeleteUser row): the users with that id leave both
        lists, and the search effect recomputes the filtered list from the reduced users, which by
        `DeleteCommutesWithSearch` is the list the handler itself set. */
    method HandleDelete(id: string)
      modifies this`users, this`filteredUsers, this`currentPage
      ensures users == WithoutUser(old(users), id)
      ensures filteredUsers == FilterUsers(WithoutUser(old(users), id), remarks, searchQuery)
      ensures Valid() && currentPage == 1
    {
      users := WithoutUser(users, id);
      filteredUsers := WithoutUser(filteredUsers, id);
      SearchEffect();
    }

    /** `handleRoleChange`: once the profile update succeeds, that user's entry carries the new role. */
    method HandleRoleChange(store: Store, id: string, isAdmin: bool, fail: bool)
      modifies this`remarks, this`filteredUsers, this`currentPage, store`profiles
      ensures store.profiles == if fail then old(store.profiles) else UpdateProfiles(old(store.profiles), id, SetRole(NewRole(isAdmin)))
      ensures remarks == if fail then old(remarks) else RoleChange(old(remarks), id, NewRole(isAdmin))
      ensures fail ==> filteredUsers == old(filteredUsers) && currentPage == old(currentPage)
      ensures !fail ==> Valid() && currentPage == 1
    {
      var role := NewRole(isAdmin);
      var ok := store.UpdateProfile(id, SetRole(role), fail);
      if ok {
        remarks := RoleChange(remarks, id, role);
        SearchEffect();
      }
    }

    /** `handleSearchChange`: a new query reruns the search; the same query changes nothing. */
    method HandleSearchChange(value: string)
      modifies this`searchQuery, this`filteredUsers, this`currentPage
      ensures searchQuery == value
      ensures value != old(searchQuery) ==> Valid() && currentPage == 1
      ensures value == old(searchQuery) ==> filteredUsers == old(filteredUsers) && currentPage == old(currentPage)
    {
      if value != searchQuery {
        searchQuery := value;
        SearchEffect();
      }
    }
  }
}
