/** The store of connected users (src/common/active_users.cpp): connection id to nickname. */
module ActiveUsers {

  type Users = map<string, string>

  /** The nickname shown for an id; an id that is not active is shown as itself. */
  function NicknameOf(users: Users, id: string): string {
    if id in users then users[id] else id
  }

  /** Renaming touches active users only. */
  function Renamed(users: Users, id: string, nickname: string): Users {
    if id in users then users[id := nickname] else users
  }

  class ActiveUsersManager {
    var activeUsers: Users

    constructor ()
      ensures activeUsers == map[]
    {
      activeUsers := map[];
    }

    method AddUser(userId: string, nickname: string)
      modifies this
      ensures activeUsers == old(activeUsers)[userId := nickname]
    {
      activeUsers := activeUsers[userId := nickname];
    }

    method RemoveUser(userId: string)
      modifies this
      ensures activeUsers == old(activeUsers) - {userId}
    {
      activeUsers := activeUsers - {userId};
    }

    method UpdateNickname(userId: string, nickname: string)
      modifies this
      ensures activeUsers == Renamed(old(activeUsers), userId, nickname)
    {
      if userId in activeUsers {
        activeUsers := activeUsers[userId := nickname];
      }
    }

    method GetNickname(userId: string) returns (nickname: string)
      ensures nickname == NicknameOf(activeUsers, userId)
    {
      if userId in activeUsers {
        return activeUsers[userId];
      }
      return userId;
    }

    method GetAllActiveUsers() returns (users: Users)
      ensures users == activeUsers
    {
      return activeUsers;
    }
  }
}
