/** The event handlers of main.go: guildCreate, guildMemberAdd and
    messageCreate. The Discord session is reduced to the bot's own user ID
    and the log of messages sent through ChannelMessageSend; the database is
    the users table of the Store module. Each handler call is one atomic step. */
module Handlers {
  import opened Strconv
  import opened Utils
  import opened Users
  import opened Store

  /** A message the bot sent: the channel and the text. */
  datatype Message = Message(channelID: string, content: string)

  const StatusCommand := "!status"
  const LevelupCommand := "!levelup"
  const StatusError := "Error getting user information"
  const LevelupError := "Error leveling up"

  /** The reply to "!status" for a user whose row was read. */
  function StatusReply(username: string, u: User): string {
    username + "'s stats\n" + StatsText(u)
  }

  /** The reply to a successful "!levelup" (the source spells it "sucessfully"). */
  function LevelupReply(username: string): string {
    username + " has sucessfully leveled up"
  }

  /** The running bot: its own user ID (session.State.User.ID), the users
      table it reaches through dbPool, and every message it has sent. */
  class Bot {
    const botID: string
    const db: UserStore
    var sent: seq<Message>

    constructor (botID: string, db: UserStore)
      ensures this.botID == botID && this.db == db && sent == []
    {
      this.botID := botID;
      this.db := db;
      sent := [];
    }

    /** session.ChannelMessageSend: the message joins the log. */
    method Send(channelID: string, content: string)
      modifies this
      ensures sent == old(sent) + [Message(channelID, content)]
    {
      sent := sent + [Message(channelID, content)];
    }

    /** guildCreate: reconcile the guild's members with the table and copy
        the new ones in one batch. A failed lookup, an empty list or a failed
        copy leaves the table as it was; no message is ever sent. */
    method GuildCreate(members: seq<string>, lookupFault: bool, insertFault: bool)
      modifies db
      ensures var added := NewUsers(members, StoredIds(old(db.rows)), botID);
        db.rows == if !lookupFault && !insertFault && Insertable(old(db.rows), added)
                   then old(db.rows) + Batch(added)
                   else old(db.rows)
      ensures !lookupFault && !insertFault &&
              Insertable(old(db.rows), NewUsers(members, StoredIds(old(db.rows)), botID)) ==>
        forall m :: m in members && m != botID ==> StringToInt(m) in db.rows
    {
      ghost var before := db.rows;
      ReconciledMembersCovered(before, members, botID);
      var newUsers := db.LookUpNewUsers(members, botID, lookupFault);
      if newUsers.Err? {
        return;
      }
      if |newUsers.value| > 0 {
        var err := db.AddUsers(newUsers.value, insertFault);
        if err != Pass {
          return;
        }
      } else {
        assert Insertable(before, newUsers.value);
        assert Batch(newUsers.value) == map[];
        assert before + map[] == before;
      }
    }

    /** guildMemberAdd: copy a default user for the joining member unless the
        table already has a row for it. If the existence check fails the
        handler gives up and the table is unchanged. */
    method GuildMemberAdd(userID: string, existsFault: bool, insertFault: bool)
      modifies db
      ensures existsFault || SqlKey(userID).None? ==> db.rows == old(db.rows)
      ensures !existsFault && SqlKey(userID).Some? ==>
        var k := SqlKey(userID).value;
        db.rows == if k !in old(db.rows) && !insertFault
                   then old(db.rows)[k := RowOf(CreateDefaultUser(userID))]
                   else old(db.rows)
    {
      ghost var before := db.rows;
      var found := db.DoesUserExist(userID, existsFault);
      if found.Err? {
        return;
      }
      if !found.value {
        var u := CreateDefaultUser(userID);
        assert Key(u) == SqlKey(userID).value;
        assert Key(u) !in before;
        assert [u][..|[u]| - 1] == [];
        assert Batch([]) == map[];
        assert Insertable(before, []);
        assert Insertable(before, [u]);
        assert before + Batch([u]) == before[Key(u) := RowOf(u)];
        var err := db.AddUsers([u], insertFault);
      }
    }

    /** messageCreate: ignore the bot's own messages; answer exactly
        "!status" with the author's stats and exactly "!levelup" by raising
        the author's level; ignore every other message. */
    method MessageCreate(authorID: string, username: string, channelID: string, content: string, dbFault: bool)
      modifies this, db
      ensures authorID == botID || (content != StatusCommand && content != LevelupCommand) ==>
        sent == old(sent) && db.rows == old(db.rows)
      ensures authorID != botID && content == StatusCommand ==>
        var f := Fetch(old(db.rows), authorID);
        && db.rows == old(db.rows)
        && sent == old(sent) + [Message(channelID,
             if !dbFault && f.Ok? then StatusReply(username, f.value) else StatusError)]
      ensures authorID != botID && content == LevelupCommand ==>
        var key := SqlKey(authorID);
        if !dbFault && key.Some? && key.value in old(db.rows) then
          && db.rows == IncrementLevel(old(db.rows), key.value)
          && sent == old(sent) + [Message(channelID, LevelupReply(username))]
        else
          && db.rows == old(db.rows)
          && sent == old(sent) + [Message(channelID, LevelupError)]
    {
      if authorID == botID {
        return;
      }
      if content == StatusCommand {
        var user := db.GetUserStatus(authorID, dbFault);
        if user.Err? {
          Send(channelID, StatusError);
          return;
        }
        Send(channelID, StatusReply(username, user.value));
      } else if content == LevelupCommand {
        var err := db.Levelup(authorID, dbFault);
        if err != Pass {
          Send(channelID, LevelupError);
          return;
        }
        Send(channelID, LevelupReply(username));
      }
    }
  }

  /** The stats part of a "!status" reply reads back as the user it shows. */
  lemma StatusReplyDecodes(username: string, u: User)
    ensures var header := username + "'s stats\n";
      var reply := StatusReply(username, u);
      |header| <= |reply| && reply[..|header|] == header &&
      ParseStats(u.userID, reply[|header|..]) == Some(u)
  {
    var header := username + "'s stats\n";
    assert StatusReply(username, u)[|header|..] == StatsText(u);
    StatsTextRoundTrip(u);
  }

  /** Every reply tells success from failure: a stats reply contains a line
      break and the error text does not, and a successful level-up reply
      never equals the level-up error text. */
  lemma RepliesDistinguishOutcome(username: string, u: User)
    ensures '\n' in StatusReply(username, u) && '\n' !in StatusError
    ensures LevelupReply(username) != LevelupError
  {
    var s := StatusReply(username, u);
    assert s[|username| + 8] == '\n';
  }
}
