/** The generic records of database/database.go. */
module Records {

  datatype Commit = Commit(
    sha: string, url: string, message: string, author: string, committer: string,
    additions: int, deletions: int)

  datatype Review = Review(
    id: int, author: string, state: string, submittedAt: int, commitID: string,
    repo: string, number: int, additions: int, deletions: int)

  datatype PullRequest = PullRequest(
    repo: string, organization: string, user: string, url: string, number: int,
    updatedAt: int, closedAt: int, mergedAt: int, merged: bool, state: string,
    additions: int, deletions: int, mergedBy: string,
    commits: seq<Commit>, reviews: seq<Review>)
}
