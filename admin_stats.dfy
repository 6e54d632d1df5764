/** The blog app's `/api/admin/stats` handler: five counts over the two tables. */
module AdminStatsRoute {
  import opened Entities

  datatype StatsBody = StatsBody(
    totalBlogs: nat,
    pendingBlogs: nat,
    approvedBlogs: nat,
    rejectedBlogs: nat,
    totalUsers: nat)

  /** Every post passes. */
  function AnyBlog(): Blog -> bool {
    (b: Blog) => true
  }

  /** The number of posts with status `s` (`blog.count({ where: { status: s } })`). */
  function CountStatus(blogs: seq<Blog>, s: Status): nat {
    CountWhere(blogs, WithStatus(AnyBlog(), s))
  }

  /**
   * `GET /api/admin/stats`: the post and user totals and the post count per
   * status; since every post has one of the three statuses, the three status
   * counts add up to the total.
   */
  function Get(blogs: seq<Blog>, users: seq<User>): (r: StatsBody)
    ensures r.totalBlogs == |blogs| && r.totalUsers == |users|
    ensures r.pendingBlogs == CountStatus(blogs, PENDING)
    ensures r.approvedBlogs == CountStatus(blogs, APPROVED)
    ensures r.rejectedBlogs == CountStatus(blogs, REJECTED)
    ensures r.pendingBlogs + r.approvedBlogs + r.rejectedBlogs == r.totalBlogs
  {
    StatusPartition(blogs, AnyBlog());
    FilterAll(blogs, AnyBlog());
    StatsBody(|blogs|, CountStatus(blogs, PENDING), CountStatus(blogs, APPROVED),
              CountStatus(blogs, REJECTED), |users|)
  }

  /** The status column of the table. */
  function Statuses(blogs: seq<Blog>): (r: seq<Status>)
    ensures |r| == |blogs| && forall i :: 0 <= i < |blogs| ==> r[i] == blogs[i].status
  {
    seq(|blogs|, i requires 0 <= i < |blogs| => blogs[i].status)
  }

  /** A status count is the multiplicity of that status in the status column. */
  lemma {:induction false} CountStatusColumn(blogs: seq<Blog>, s: Status)
    ensures CountStatus(blogs, s) == multiset(Statuses(blogs))[s]
  {
    if blogs != [] {
      CountStatusColumn(blogs[1..], s);
      assert Statuses(blogs) == [blogs[0].status] + Statuses(blogs[1..]);
    }
  }
}
