/**
 * User profiles (`Profile.kt`): the GitHub and Twitch link parsers shown in
 * the profile embed, and the profile fields whose setters write the whole
 * profile through to its row in the profiles table.
 */
module Profiles {
  import opened Util

  const GITHUB_PREFIX: string := "https://github.com/"
  const TWITCH_PREFIX: string := "https://twitch.tv/"

  /** One or more characters, none of them whitespace: the regex `\S+`. */
  predicate NonSpaceRun(s: string)
  {
    |s| > 0 && forall i :: 0 <= i < |s| ==> !RegexSpace(s[i])
  }

  /** Drops one trailing `/`. */
  function StripSlash(s: string): (r: string)
    ensures r == s || r + "/" == s
    ensures EndsWith(s, "/") <==> r != s
  {
    if EndsWith(s, "/") then s[..|s| - 1] else s
  }

  /**
   * `prefix(\S+)/?` matched against the whole url, its group with one
   * trailing `/` dropped. The greedy group takes everything after the
   * prefix, so the optional slash never matches anything.
   */
  function ParseLink(url: string, prefix: string): (r: Option<string>)
    ensures r.Some? <==> StartsWith(url, prefix) && NonSpaceRun(url[|prefix|..])
    ensures r.Some? ==> url == prefix + r.value || url == prefix + r.value + "/"
  {
    if StartsWith(url, prefix) && NonSpaceRun(url[|prefix|..]) then
      assert url == prefix + url[|prefix|..];
      Some(StripSlash(url[|prefix|..]))
    else None
  }

  function ParseGithub(url: string): Option<string> { ParseLink(url, GITHUB_PREFIX) }

  function ParseTwitch(url: string): Option<string> { ParseLink(url, TWITCH_PREFIX) }

  /** A profile link built from a user name, with or without a trailing slash, parses back to the name. */
  lemma ParseLinkOfName(prefix: string, name: string, slash: bool)
    requires NonSpaceRun(name) && !EndsWith(name, "/")
    ensures ParseLink(prefix + name + (if slash then "/" else ""), prefix) == Some(name)
  {
    var url := prefix + name + (if slash then "/" else "");
    assert StartsWith(url, prefix);
    var rest := url[|prefix|..];
    assert rest == name + (if slash then "/" else "");
    if slash {
      assert rest[|rest| - 1] == '/';
      assert EndsWith(rest, "/");
      assert rest[..|rest| - 1] == name;
      assert !RegexSpace(rest[|rest| - 1]);
      assert NonSpaceRun(rest);
    } else {
      assert rest == name;
    }
  }

  /** `https://github.com//` parses to the empty name. */
  lemma BareSlashIsEmptyName()
    ensures ParseGithub("https://github.com//") == Some("")
  {
    var url := "https://github.com//";
    assert url == GITHUB_PREFIX + "/";
    assert url[|GITHUB_PREFIX|..] == "/";
  }

  /** Only one of two trailing slashes is dropped. */
  lemma TwoSlashesKeepOne()
    ensures ParseTwitch("https://twitch.tv/a//") == Some("a/")
  {
    var url := "https://twitch.tv/a//";
    assert url == TWITCH_PREFIX + "a//";
    assert url[|TWITCH_PREFIX|..] == "a//";
    assert "a//"[..2] == "a/";
  }

  /** A link with a space after the prefix is not a profile link. */
  lemma SpaceIsNoLink()
    ensures ParseGithub("https://github.com/a b").None?
  {
    var url := "https://github.com/a b";
    assert url == GITHUB_PREFIX + "a b";
    assert url[|GITHUB_PREFIX|..] == "a b";
    assert RegexSpace(url[|GITHUB_PREFIX|..][1]);
  }

  // ------------------------------------------------------------ write-through fields

  /** The columns of a profiles row, the time zone by its id and the birthday as a day number. */
  datatype Row = Row(timeZoneId: Option<string>, github: Option<string>, website: Option<string>,
                     twitch: Option<string>, title: Option<string>, about: Option<string>,
                     birthday: Option<int>)

  /** The profiles table, by user id. */
  class ProfileTable {
    var rows: map<nat, Row>

    constructor (rows: map<nat, Row>)
      ensures this.rows == rows
    {
      this.rows := rows;
    }
  }

  /** `updateProfile`: `UPDATE ... WHERE USER_ID = ?` changes the user's row if there is one. */
  function Updated(rows: map<nat, Row>, userId: nat, row: Row): (r: map<nat, Row>)
    ensures r.Keys == rows.Keys
    ensures userId in rows ==> r[userId] == row
    ensures forall id :: id in rows && id != userId ==> r[id] == rows[id]
  {
    if userId in rows then rows[userId := row] else rows
  }

  class Profile {
    const userId: nat
    /** The id of the time zone, `timeZone?.id`. */
    var timeZoneId: Option<string>
    var github: Option<string>
    var website: Option<string>
    var twitch: Option<string>
    var title: Option<string>
    var about: Option<string>
    var birthday: Option<int>

    /** The row as `updateProfile` writes it. */
    function ToRow(): Row
      reads this
    {
      Row(timeZoneId, github, website, twitch, title, about, birthday)
    }

    /** The stored row, when there is one, is this profile. */
    predicate SyncedWith(table: ProfileTable)
      reads this, table
    {
      userId in table.rows ==> table.rows[userId] == ToRow()
    }

    /** A profile read from its row, the cursor already on that row. */
    constructor FromRow(userId: nat, row: Row)
      ensures this.userId == userId && ToRow() == row
    {
      this.userId := userId;
      timeZoneId := row.timeZoneId;
      github := row.github;
      website := row.website;
      twitch := row.twitch;
      title := row.title;
      about := row.about;
      birthday := row.birthday;
    }

    /**
     * Setting the time zone id resolves it to a zone first (`zoneOf`, the
     * runtime's zone table); the id stored is the resolved zone's.
     */
    method SetTimeZoneId(value: Option<string>, zoneOf: string -> Option<string>, table: ProfileTable)
      modifies this`timeZoneId, table
      ensures timeZoneId == (if value.Some? then zoneOf(value.value) else None)
      ensures table.rows == Updated(old(table.rows), userId, ToRow())
      ensures SyncedWith(table)
    {
      timeZoneId := if value.Some? then zoneOf(value.value) else None;
      table.rows := Updated(table.rows, userId, ToRow());
    }

    method SetGithub(value: Option<string>, table: ProfileTable)
      modifies this`github, table
      ensures github == value
      ensures table.rows == Updated(old(table.rows), userId, ToRow())
      ensures SyncedWith(table)
    {
      github := value;
      table.rows := Updated(table.rows, userId, ToRow());
    }

    method SetWebsite(value: Option<string>, table: ProfileTable)
      modifies this`website, table
      ensures website == value
      ensures table.rows == Updated(old(table.rows), userId, ToRow())
      ensures SyncedWith(table)
    {
      website := value;
      table.rows := Updated(table.rows, userId, ToRow());
    }

    method SetTwitch(value: Option<string>, table: ProfileTable)
      modifies this`twitch, table
      ensures twitch == value
      ensures table.rows == Updated(old(table.rows), userId, ToRow())
      ensures SyncedWith(table)
    {
      twitch := value;
      table.rows := Updated(table.rows, userId, ToRow());
    }

    method SetTitle(value: Option<string>, table: ProfileTable)
      modifies this`title, table
      ensures title == value
      ensures table.rows == Updated(old(table.rows), userId, ToRow())
      ensures SyncedWith(table)
    {
      title := value;
      table.rows := Updated(table.rows, userId, ToRow());
    }

    method SetAbout(value: Option<string>, table: ProfileTable)
      modifies this`about, table
      ensures about == value
      ensures table.rows == Updated(old(table.rows), userId, ToRow())
      ensures SyncedWith(table)
    {
      about := value;
      table.rows := Updated(table.rows, userId, ToRow());
    }

    method SetBirthday(value: Option<int>, table: ProfileTable)
      modifies this`birthday, table
      ensures birthday == value
      ensures table.rows == Updated(old(table.rows), userId, ToRow())
      ensures SyncedWith(table)
    {
      birthday := value;
      table.rows := Updated(table.rows, userId, ToRow());
    }
  }

  /** A field written and read back through the table is the value set. */
  lemma WrittenRowReadsBack(rows: map<nat, Row>, userId: nat, row: Row)
    requires userId in rows
    ensures Updated(rows, userId, row)[userId] == row
    ensures Updated(Updated(rows, userId, row), userId, row) == Updated(rows, userId, row)
  {
  }
}
